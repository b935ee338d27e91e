/** The path normaliser as the server runs it: two indices walking one buffer of characters that ends
    in a NUL, and the session's current directory edited in place. */
module FtpServer {
  import opened Words
  import opened FtpPath

  const NUL: char := '\0'

  // ---------------------------------------------------------------------------
  // C strings
  // ---------------------------------------------------------------------------

  predicate Terminated(s: string) {
    NUL in s
  }

  /** The text of a C string: everything before the first NUL. */
  function CString(s: string): string {
    if s == "" || s[0] == NUL then "" else [s[0]] + CString(s[1..])
  }

  lemma {:induction false} CStringPrefix(s: string)
    requires Terminated(s)
    ensures |CString(s)| < |s| && s[|CString(s)|] == NUL
    ensures s[..|CString(s)|] == CString(s)
    ensures NUL !in CString(s)
  {
    if s[0] != NUL {
      CStringPrefix(s[1..]);
      assert s == [s[0]] + s[1..];
    }
  }

  lemma {:induction false} CStringUnique(s: string, n: nat)
    requires n < |s| && s[n] == NUL && NUL !in s[..n]
    ensures Terminated(s) && CString(s) == s[..n]
    decreases n
  {
    if n > 0 {
      assert s[0] in s[..n];
      assert s[1..][..n - 1] == s[..n][1..];
      CStringUnique(s[1..], n - 1);
      assert s[..n] == [s[0]] + s[1..][..n - 1];
    }
  }

  // ---------------------------------------------------------------------------
  // The inner loops
  // ---------------------------------------------------------------------------

  /** From index `from` on the buffer still holds the path it was given. */
  ghost predicate Unread(buf: array<char>, from: nat, p: string)
    reads buf
  {
    && from <= |p| < buf.Length && buf[|p|] == NUL
    && forall i :: from <= i < |p| ==> buf[i] == p[i] && p[i] != NUL
  }

  /** The text written so far. */
  ghost predicate Written(buf: array<char>, out: string)
    reads buf
  {
    |out| <= buf.Length && forall i :: 0 <= i < |out| ==> buf[i] == out[i]
  }

  /** Advances past a run of slashes. */
  method SkipRun(buf: array<char>, from: nat, ghost p: string) returns (src: nat)
    requires Unread(buf, from, p)
    ensures from <= src <= |p| && p[src..] == SkipSlashes(p[from..])
  {
    src := from;
    while buf[src] == '/'
      invariant from <= src <= |p|
      invariant SkipSlashes(p[src..]) == SkipSlashes(p[from..])
      decreases |p| - src
    {
      assert p[src..][1..] == p[src + 1..];
      src := src + 1;
    }
  }

  lemma NameAt(p: string, from: nat)
    requires from <= |p|
    ensures
      var end := from + NameLen(p[from..]);
      && end <= |p| && (end < |p| ==> p[end] == '/')
      && forall i :: from <= i < end ==> p[i] != '/'
  {
    NameLenStops(p[from..]);
    assert forall i :: from <= i < |p| ==> p[i] == p[from..][i - from];
  }

  /** Copies one name down to `to`; `src` ends one past the slash or NUL that stopped it. */
  method CopyName(buf: array<char>, from: nat, to: nat, ghost p: string) returns (src: nat, dst: nat, c: char)
    requires to <= from && Unread(buf, from, p)
    modifies buf
    ensures
      var len := NameLen(p[from..]);
      && src == from + len + 1 && dst == to + len
      && c == (if from + len == |p| then NUL else '/')
      && (forall i :: to <= i < dst ==> buf[i] == p[i - to + from])
      && (forall i :: 0 <= i < to || from + len <= i < buf.Length ==> buf[i] == old(buf[i]))
  {
    hide NameLen;
    ghost var len := NameLen(p[from..]);
    NameAt(p, from);
    src, dst := from, to;
    c := buf[src];
    src := src + 1;
    while c != NUL && c != '/'
      invariant from < src <= from + len + 1 && dst == to + (src - from - 1)
      invariant c == if src - 1 == |p| then NUL else p[src - 1]
      invariant forall i :: to <= i < dst ==> buf[i] == p[i - to + from]
      invariant forall i :: 0 <= i < to || src - 1 <= i < buf.Length ==> buf[i] == old(buf[i])
      decreases from + len + 1 - src
    {
      buf[dst] := c;
      dst := dst + 1;
      c := buf[src];
      src := src + 1;
    }
  }

  lemma SkipOne(t: string)
    requires t != "" && t[0] == '/'
    ensures SkipSlashes(t) == SkipSlashes(t[1..])
  {
  }

  /** Copies one name and the slash after it down to the end of what has been written, and skips any
      further slashes; `ended` when the name ran into the NUL instead. */
  method NextName(buf: array<char>, from: nat, to: nat, ghost p: string, ghost out: string)
    returns (src: nat, dst: nat, ended: bool, ghost out': string)
    requires to == |out| <= from && Unread(buf, from, p) && Written(buf, out)
    modifies buf
    ensures ended <==> NameLen(p[from..]) == |p| - from
    ensures out' == out + p[from..][..NameLen(p[from..])] + if ended then "" else "/"
    ensures dst == |out'| && Written(buf, out') && from <= src
    ensures Unread(buf, if ended then |p| else src, p)
    ensures forall i :: |p| < i < buf.Length ==> buf[i] == old(buf[i])
    ensures ended ==> dst <= |p|
    ensures !ended ==> from < src && dst <= src && p[src..] == SkipSlashes(p[from..][NameLen(p[from..])..])
  {
    hide NameLen;
    hide SkipSlashes;
    ghost var len := NameLen(p[from..]);
    NameAt(p, from);
    var c: char;
    src, dst, c := CopyName(buf, from, to, p);
    ended := c == NUL;
    out' := Appended(buf, out, p, from, len);
    if !ended {
      buf[dst] := '/';
      dst := dst + 1;
      out' := out' + "/";
      SkipOne(p[from..][len..]);
      assert p[from..][len..][1..] == p[src..];
      src := SkipRun(buf, src, p);
    }
  }

  lemma Appended(buf: array<char>, out: string, p: string, from: nat, len: nat) returns (out': string)
    requires from + len <= |p| && |out| + len <= buf.Length && Written(buf, out)
    requires forall i :: |out| <= i < |out| + len ==> buf[i] == p[i - |out| + from]
    ensures out' == out + p[from..][..len] && |out'| == |out| + len && Written(buf, out')
  {
    out' := out + p[from..][..len];
  }

  /** Drops the last name (and its slash) from the text written so far. */
  method BackUp(buf: array<char>, from: nat, ghost front: string, ghost name: string) returns (dst: nat)
    requires from == |front| + |name| + 1 && Written(buf, front + name + "/")
    requires '/' !in name && (front != "" ==> front[|front| - 1] == '/')
    ensures dst == |front| && Written(buf, front)
  {
    ghost var out := front + name + "/";
    assert forall i :: 0 <= i < |front| ==> buf[i] == out[i] == front[i];
    assert forall i :: 0 <= i < |name| ==> buf[|front| + i] == out[|front| + i] == name[i];
    assert forall i :: 0 <= i < |name| ==> name[i] in name;
    dst := from - 1;
    while 0 < dst && buf[dst - 1] != '/'
      invariant |front| <= dst <= |front| + |name|
    {
      dst := dst - 1;
    }
  }

  // ---------------------------------------------------------------------------
  // The normaliser
  // ---------------------------------------------------------------------------

  /** What the pointer walk has established when it stands at the start of a component: `out` is
      what has been written, `rest` what is still to be read. */
  predicate Progress(p: string, rest: string, out: string, w: Walk) {
    || (rest == p && out == "" && p != "" && p[0] == '/')
    || (&& w.At? && (forall n :: n in w.stack ==> IsName(n))
        && out == Dirs(w.rooted, w.stack)
        && Visit(w, Components(rest)) == WalkPath(p)
        && (rest != "" ==> rest[0] != '/'))
  }

  /** Where the walk is once the first component of `rest` has been dealt with. */
  lemma OneComponent(p: string, rest: string, out: string, w: Walk)
    requires Progress(p, rest, out, w) && rest != "" && rest[0] != '/'
    ensures
      var n := NameLen(rest);
      && n > 0 && IsName(rest[..n])
      && Visit(Enter(w, rest[..n]), Components(SkipSlashes(rest[n..]))) == WalkPath(p)
  {
    NameLenStops(rest);
    ComponentsUnfold(rest);
    ComponentsUnfold(rest[NameLen(rest)..]);
  }

  /** A leading slash is written out and the rest is walked from the root. */
  lemma LeadingSlash(p: string)
    requires p != "" && p[0] == '/'
    ensures Progress(p, SkipSlashes(p), "/", At(true, []))
  {
    ComponentsUnfold(p);
    SkipSlashesStops(p);
  }


  /** A name followed by a slash has been copied: one step of the walk, or the leading slash. */
  lemma AfterName(p: string, rest: string, out: string, w: Walk) returns (w': Walk)
    requires Progress(p, rest, out, w) && NameLen(rest) < |rest|
    requires rest[..NameLen(rest)] != "." && rest[..NameLen(rest)] != ".."
    ensures
      var n := NameLen(rest);
      Progress(p, SkipSlashes(rest[n..]), out + rest[..n] + "/", w')
  {
    var n := NameLen(rest);
    SkipSlashesStops(rest[n..]);
    if rest[0] == '/' {
      w' := At(true, []);
      LeadingSlash(p);
      assert rest[n..] == p && out + rest[..n] + "/" == "/";
    } else {
      OneComponent(p, rest, out, w);
      w' := Enter(w, rest[..n]);
      assert w'.stack[..|w.stack|] == w.stack;
    }
  }

  /** What the walk has written when it reaches the end of the path. */
  predicate Finished(p: string, out: string, w: Walk) {
    && w == WalkPath(p) && w.At?
    && (forall n :: n in w.stack ==> IsName(n))
    && (out == Dirs(w.rooted, w.stack) || (w.stack != [] && out == Render(w.rooted, w.stack)))
  }

  /** The path has ended in a name, or there was nothing left to copy. */
  lemma AfterLastName(p: string, rest: string, out: string, w: Walk) returns (w': Walk)
    requires Progress(p, rest, out, w) && NameLen(rest) == |rest|
    requires rest != "." && rest != ".."
    ensures Finished(p, out + rest, w')
  {
    if rest == "" {
      w' := w;
      assert out + rest == out;
    } else {
      NameLenStops(rest);
      OneComponent(p, rest, out, w);
      assert rest[..|rest|] == rest && rest[|rest|..] == "";
      w' := Enter(w, rest);
      assert w'.stack[..|w.stack|] == w.stack;
    }
  }

  /** ".." has been read: what is left of the text after dropping its last name. */
  lemma AfterUp(p: string, rest: string, out: string, w: Walk) returns (front: string, name: string, w': Walk)
    requires Progress(p, rest, out, w) && out != ""
    requires NameLen(rest) == 2 <= |rest| && rest[..2] == ".." && rest[0] != '/'
    ensures out == front + name + "/" && '/' !in name && (front != "" ==> front[|front| - 1] == '/')
    ensures Progress(p, SkipSlashes(rest[2..]), front, w')
  {
    SkipSlashesStops(rest[2..]);
    OneComponent(p, rest, out, w);
    w' := Enter(w, "..");
    front := Dirs(w'.rooted, w'.stack);
    name := if w.stack == [] then "" else w.stack[|w.stack| - 1];
    assert name != "" ==> IsName(name);
  }

  lemma UpFromNowhere(p: string, rest: string, w: Walk)
    requires Progress(p, rest, "", w) && NameLen(rest) == 2 <= |rest| && rest[..2] == ".." && rest[0] != '/'
    ensures Normalize(p) == Null
  {
    OneComponent(p, rest, "", w);
    RefusedStays(Components(SkipSlashes(rest[2..])));
  }

  lemma AfterDot(p: string, rest: string, out: string, w: Walk)
    requires Progress(p, rest, out, w) && NameLen(rest) == 1 <= |rest| && rest[0] == '.'
    ensures Progress(p, SkipSlashes(rest[1..]), out, w)
  {
    SkipSlashesStops(rest[1..]);
    OneComponent(p, rest, out, w);
    assert rest[..1] == ".";
  }

  lemma SpecialComponent(rest: string)
    requires rest != "" && rest[0] == '.'
    ensures rest == "." ==> NameLen(rest) == 1
    ensures |rest| > 1 && rest[1] == '/' ==> NameLen(rest) == 1 && SkipSlashes(rest[1..]) == SkipSlashes(rest[2..])
    ensures rest == ".." ==> NameLen(rest) == 2
    ensures |rest| > 2 && rest[1] == '.' && rest[2] == '/' ==>
      NameLen(rest) == 2 && SkipSlashes(rest[2..]) == SkipSlashes(rest[3..])
    ensures
      !(rest == "." || rest == ".." || (|rest| > 1 && rest[1] == '/')
        || (|rest| > 2 && rest[1] == '.' && rest[2] == '/')) ==>
      rest[..NameLen(rest)] != "." && rest[..NameLen(rest)] != ".."
  {
    NameLenStops(rest);
    if |rest| > 1 {
      assert rest[1..][1..] == rest[2..];
      assert rest[1..][0] == rest[1];
      if |rest| > 2 {
        assert rest[2..][1..] == rest[3..];
        assert rest[2..][0] == rest[2];
      }
    }
    var n := NameLen(rest);
    if rest[..n] == "." {
      assert n == 1;
    } else if rest[..n] == ".." {
      assert n == 2 && rest[1] == rest[..n][1];
    }
  }

  /** Looks for "." and ".." at `from`: `again` when "./" was skipped, `up` when ".." was. */
  method ReadSpecial(buf: array<char>, from: nat, ghost p: string) returns (src: nat, up: bool, again: bool)
    requires Unread(buf, from, p)
    ensures from <= src <= |p| && !(up && again)
    ensures again ==> from < src && NameLen(p[from..]) == 1 && p[from] == '.' && p[src..] == SkipSlashes(p[from..][1..])
    ensures up ==>
      && from < src && NameLen(p[from..]) == 2 <= |p| - from && p[from] == '.' && p[from..][..2] == ".."
      && p[src..] == SkipSlashes(p[from..][2..])
    ensures !up && !again ==>
      || (p[from..] == "." && NameLen(p[from..]) == 1 && src == |p|)
      || (src == from && p[from..][..NameLen(p[from..])] != "." && p[from..][..NameLen(p[from..])] != "..")
  {
    hide SkipSlashes;
    ghost var rest := p[from..];
    src, up, again := from, false, false;
    if buf[src] == '.' {
      SpecialComponent(rest);
      hide NameLen;
      if buf[src + 1] == NUL {
        src := src + 1;
      } else if buf[src + 1] == '/' {
        assert rest[2..] == p[from + 2..];
        src := SkipRun(buf, src + 2, p);
        again := true;
      } else if buf[src + 1] == '.' {
        if buf[src + 2] == NUL {
          src := src + 2;
          up := true;
          assert rest == ".." && rest[2..] == "";
          SkipNothing();
        } else if buf[src + 2] == '/' {
          assert rest[3..] == p[from + 3..];
          src := SkipRun(buf, src + 3, p);
          up := true;
        }
      }
    } else {
      NameLenStops(rest);
    }
  }

  lemma StaysText(p: string, from: nat, out: string)
    requires from <= |p| && NUL !in p && NUL !in out
    ensures NUL !in out + p[from..][..NameLen(p[from..])] + "/"
    ensures NUL !in out + p[from..][..NameLen(p[from..])] + ""
  {
  }

  lemma SkipNothing()
    ensures SkipSlashes("") == ""
  {
  }

  datatype Status = Done | NullPointer | BeforeStart | PastEnd

  function StatusOf(v: Verdict): Status {
    match v
    case Path(_) => Done
    case Null => NullPointer
    case BeforeBuffer => BeforeStart
    case PastBuffer => PastEnd
  }

  /** When a text ends in a slash, and what is left without it. */
  lemma DirsShape(w: Walk)
    requires w.At? && forall n :: n in w.stack ==> IsName(n)
    ensures w.stack != [] ==>
      var (d, r) := (Dirs(w.rooted, w.stack), Render(w.rooted, w.stack));
      |d| > 1 && d == r + "/" && r != "" && r[|r| - 1] != '/'
  {
    if w.stack != [] {
      var last := w.stack[|w.stack| - 1];
      assert last in w.stack && last[|last| - 1] in last;
    }
  }

  /** The verdict, from the text written: one trailing slash less, unless it is all there is. */
  lemma Stripped(p: string, out: string, w: Walk)
    requires Finished(p, out, w)
    ensures Normalize(p) ==
      if out == "" then BeforeBuffer
      else if |out| > 1 && out[|out| - 1] == '/' then Path(out[..|out| - 1])
      else Path(out)
  {
    DirsShape(w);
  }

  /** One trailing slash less, unless it is the whole text. */
  method StripSlash(buf: array<char>, to: nat, ghost out: string)
    requires 0 < to == |out| < buf.Length && Written(buf, out) && NUL !in out && buf[to] == NUL
    modifies buf
    ensures Terminated(buf[..])
    ensures CString(buf[..]) == if to > 1 && out[to - 1] == '/' then out[..to - 1] else out
    ensures forall i :: to <= i < buf.Length ==> buf[i] == old(buf[i])
  {
    var dst := to - 1;
    ghost var n := if dst != 0 && buf[dst] == '/' then dst else to;
    if dst != 0 && buf[dst] == '/' {
      buf[dst] := NUL;
    }
    assert buf[..][..n] == out[..n];
    CStringUnique(buf[..], n);
  }

  /** The text is complete: terminate it and strip a trailing slash. */
  method Terminate(buf: array<char>, to: nat, ghost p: string, ghost out: string, ghost w: Walk)
    returns (status: Status)
    requires to == |out| <= |p| < buf.Length && Written(buf, out) && Finished(p, out, w) && NUL !in out
    modifies buf
    ensures status == StatusOf(Normalize(p))
    ensures Terminated(buf[..])
    ensures Normalize(p).Path? ==> CString(buf[..]) == Normalize(p).text
    ensures Normalize(p) == BeforeBuffer ==> CString(buf[..]) == ""
    ensures forall i :: |p| < i < buf.Length ==> buf[i] == old(buf[i])
  {
    Stripped(p, out, w);
    hide Normalize;
    hide Finished;
    hide CString;
    buf[to] := NUL;
    if to == 0 {
      CStringUnique(buf[..], 0);
      return BeforeStart;
    }
    StripSlash(buf, to, out);
    status := Done;
  }

  method NormalizePath(buf: array<char>) returns (status: Status)
    requires Terminated(buf[..])
    modifies buf
    ensures
      var v := Normalize(CString(old(buf[..])));
      && status == StatusOf(v) && Terminated(buf[..])
      && (v.Path? ==> CString(buf[..]) == v.text)
      && (v == BeforeBuffer ==> CString(buf[..]) == "")
    ensures
      var n := |CString(old(buf[..]))|;
      n < buf.Length && forall i :: n < i < buf.Length ==> buf[i] == old(buf[i])
  {
    hide Components;
    hide NameLen;
    hide SkipSlashes;
    hide Visit;
    hide Normalize;
    hide CString;
    hide Progress;
    hide Finished;
    hide Written;
    ghost var p := CString(buf[..]);
    StartState(buf, p);
    var src, dst := 0, 0;
    ghost var w, out := At(false, []), "";
    while true
      invariant dst == |out| <= src && Unread(buf, src, p) && Written(buf, out) && NUL !in out
      invariant forall i :: |p| < i < buf.Length ==> buf[i] == old(buf[i])
      invariant Progress(p, p[src..], out, w)
      decreases |p| - src
    {
      ghost var rest, from := p[src..], src;
      var up, again: bool;
      src, up, again := ReadSpecial(buf, src, p);
      if again {
        AfterDot(p, rest, out, w);
      } else if up {
        if dst == 0 {
          UpFromNowhere(p, rest, w);
          assert buf[..][|p|] == NUL;
          return NullPointer;
        }
        ghost var front, name;
        front, name, w := AfterUp(p, rest, out, w);
        dst := BackUp(buf, dst, front, name);
        out := front;
      } else {
        if src != from {
          AfterDot(p, rest, out, w);
          SkipNothing();
          assert rest[1..] == "";
        }
        ghost var src0, rest0, out0 := src, p[src..], out;
        var ended: bool;
        src, dst, ended, out := NextName(buf, src, dst, p, out);
        StaysText(p, src0, out0);
        if ended {
          w := AfterLastName(p, rest0, out0, w);
          assert out == out0 + rest0;
          break;
        }
        w := AfterName(p, rest0, out0, w);
      }
    }
    status := Terminate(buf, dst, p, out, w);
  }

  lemma StartState(buf: array<char>, p: string)
    requires Terminated(buf[..]) && p == CString(buf[..])
    ensures Unread(buf, 0, p) && p[0..] == p
    ensures NUL !in p && Written(buf, "") && Progress(p, p, "", At(false, []))
  {
    CStringPrefix(buf[..]);
    assert forall i :: 0 <= i < |p| ==> p[i] == buf[..][..|p|][i] && p[i] in p;
  }

  // ---------------------------------------------------------------------------
  // The session
  // ---------------------------------------------------------------------------

  /** Puts `text` at index `at` and terminates it: the copying part of snprintf, strcat and strncat. */
  method Put(buf: array<char>, at: nat, text: string)
    requires at + |text| < buf.Length
    modifies buf
    ensures buf[..at + |text|] == old(buf[..at]) + text && buf[at + |text|] == NUL
  {
    forall i | 0 <= i < |text| {
      buf[at + i] := text[i];
    }
    buf[at + |text|] := NUL;
    assert buf[at..at + |text|] == text;
    assert buf[..at + |text|] == buf[..at] + buf[at..at + |text|];
  }

  method StringLength(buf: array<char>) returns (n: nat)
    requires Terminated(buf[..])
    ensures n == |CString(buf[..])| && n < buf.Length
  {
    ghost var text := CString(buf[..]);
    CStringPrefix(buf[..]);
    hide CString;
    assert forall i :: 0 <= i < |text| ==> text[i] == buf[..][..|text|][i] && text[i] in text;
    n := 0;
    while buf[n] != NUL
      invariant n <= |text|
      decreases |text| - n
    {
      n := n + 1;
    }
  }

  /** The text to be normalised, put together in the buffer. Where the slash and its terminator do not fit
      behind the directory, the code writes past the buffer's end; the model stops before that write. */
  method Assemble(buf: array<char>, path: string) returns (ok: bool)
    requires buf.Length > 1 && Terminated(buf[..]) && NUL !in path
    modifies buf
    ensures Terminated(buf[..]) && ok == HasRoom(CString(old(buf[..])), path, buf.Length)
    ensures if ok then CString(buf[..]) == FullPath(CString(old(buf[..])), path, buf.Length)
            else buf[..] == old(buf[..])
  {
    hide CString;
    ghost var dir := CString(buf[..]);
    CStringPrefix(buf[..]);
    if path != "" && path[0] == '/' {
      Put(buf, 0, path[..Min(|path|, buf.Length - 1)]);
    } else {
      var n := StringLength(buf);
      if n + 1 >= buf.Length {
        return false;
      }
      Put(buf, n, "/");
      var remain := buf.Length - (n + 1) - 1;
      Put(buf, n + 1, path[..Min(|path|, remain)]);
    }
    ghost var full := FullPath(dir, path, buf.Length);
    assert buf[..|full|] == full && buf[|full|] == NUL;
    assert NUL !in full;
    assert buf[..][..|full|] == full;
    CStringUnique(buf[..], |full|);
    ok := true;
  }

  method BuildFullPath(buf: array<char>, path: string) returns (status: Status)
    requires buf.Length > 1 && Terminated(buf[..]) && NUL !in path
    modifies buf
    ensures
      var v := Change(CString(old(buf[..])), path, buf.Length);
      && status == StatusOf(v) && Terminated(buf[..])
      && (v.Path? ==> CString(buf[..]) == v.text)
      && (v == BeforeBuffer ==> CString(buf[..]) == "")
      && (v == PastBuffer ==> buf[..] == old(buf[..]))
  {
    hide Normalize;
    hide CString;
    hide FullPath;
    hide HasRoom;
    var ok := Assemble(buf, path);
    if !ok {
      return PastEnd;
    }
    status := NormalizePath(buf);
  }

  datatype Reply = Changed | CannotOpen | Failed | Overrun

  const DIR_SIZE: nat := 256

  class Session {
    const currentdir: array<char>

    ghost predicate Valid()
      reads currentdir
    {
      currentdir.Length == DIR_SIZE && Terminated(currentdir[..])
    }

    ghost function Dir(): string
      reads currentdir
    {
      CString(currentdir[..])
    }

    constructor (root: string)
      requires |root| < DIR_SIZE && NUL !in root
      ensures Valid() && Dir() == root && fresh(currentdir)
    {
      currentdir := new char[DIR_SIZE](i requires 0 <= i => if i < |root| then root[i] else NUL);
      new;
      assert currentdir[..][|root|] == NUL && currentdir[..][..|root|] == root;
      CStringUnique(currentdir[..], |root|);
    }

    /** CWD: the directory changes whether or not it can then be opened. */
    method Cwd(path: string, opens: bool) returns (reply: Reply)
      requires Valid() && NUL !in path
      modifies currentdir
      ensures
        var v := Change(old(Dir()), path, 256);
        && Valid()
        && (v.Path? ==> Dir() == v.text && reply == if opens then Changed else CannotOpen)
        && (v == BeforeBuffer ==> Dir() == "" && reply == if opens then Changed else CannotOpen)
        && (v == Null <==> reply == Failed)
        && (v == PastBuffer <==> reply == Overrun)
    {
      hide Change;
      var status := BuildFullPath(currentdir, path);
      if status == NullPointer {
        return Failed;
      }
      if status == PastEnd {
        return Overrun;
      }
      if !opens {
        return CannotOpen;
      }
      reply := Changed;
    }

    method Cdup(opens: bool) returns (reply: Reply)
      requires Valid()
      modifies currentdir
      ensures
        var v := Change(old(Dir()), "..", 256);
        && Valid()
        && (v.Path? ==> Dir() == v.text && reply == if opens then Changed else CannotOpen)
        && (v == BeforeBuffer ==> Dir() == "" && reply == if opens then Changed else CannotOpen)
        && (v == Null <==> reply == Failed)
        && (v == PastBuffer <==> reply == Overrun)
    {
      hide Change;
      var status := BuildFullPath(currentdir, "..");
      if status == NullPointer {
        return Failed;
      }
      if status == PastEnd {
        return Overrun;
      }
      if !opens {
        return CannotOpen;
      }
      reply := Changed;
    }
  }

  /** A session's commands one after the other, from any directory: as long as the text machine has a
      directory, the session is in it, and it is canonical where the stack machine gets to. Only writing past
      the buffer ends a session; after a refusal it goes on with what is left in the buffer. */
  method RunSession(s: Session, args: seq<string>, opens: seq<bool>) returns (overrun: bool)
    requires s.Valid() && |opens| == |args| && forall a :: a in args ==> NUL !in a
    modifies s.currentdir
    ensures s.Valid()
    ensures
      var text := RunText(old(s.Dir()), args, DIR_SIZE);
      text.Some? ==> !overrun && s.Dir() == text.value
    ensures forall stack :: IsDirectory(old(s.Dir()), stack) && Run(stack, args, DIR_SIZE).Some? ==>
              !overrun && IsDirectory(s.Dir(), Run(stack, args, DIR_SIZE).value)
  {
    hide Change;
    ghost var first := s.Dir();
    forall stack | IsDirectory(first, stack) && Run(stack, args, DIR_SIZE).Some?
      ensures RunText(first, args, DIR_SIZE).Some?
      ensures IsDirectory(RunText(first, args, DIR_SIZE).value, Run(stack, args, DIR_SIZE).value)
    {
      RunStaysCanonical(first, stack, args, DIR_SIZE);
    }
    for i := 0 to |args|
      invariant s.Valid()
      invariant RunText(first, args, DIR_SIZE).Some? ==>
                  RunText(s.Dir(), args[i..], DIR_SIZE) == RunText(first, args, DIR_SIZE)
    {
      assert args[i..][0] == args[i] && args[i..][1..] == args[i + 1..];
      assert args[i] in args;
      var reply := s.Cwd(args[i], opens[i]);
      if reply == Overrun {
        return true;
      }
    }
    assert args[|args|..] == [];
    overrun := false;
  }
}
