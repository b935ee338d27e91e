/** What the FTP server's path normaliser is for, stated on strings: a path is a list of names, and
    walking it keeps a stack of directories. */
module FtpPath {
  import opened Words

  // ---------------------------------------------------------------------------
  // Names
  // ---------------------------------------------------------------------------

  predicate IsName(n: string) {
    n != "" && '/' !in n
  }

  /** Length of the part of `t` before its first slash. */
  function NameLen(t: string): (n: nat)
    ensures n <= |t|
  {
    if t == "" || t[0] == '/' then 0 else 1 + NameLen(t[1..])
  }

  function SkipSlashes(t: string): (r: string)
    ensures |r| <= |t|
  {
    if t != "" && t[0] == '/' then SkipSlashes(t[1..]) else t
  }

  lemma NameLenStops(t: string)
    ensures forall i :: 0 <= i < NameLen(t) ==> t[i] != '/'
    ensures NameLen(t) == |t| || t[NameLen(t)] == '/'
    ensures t != "" && t[0] != '/' ==> NameLen(t) > 0
  {
    if t != "" && t[0] != '/' {
      NameLenStops(t[1..]);
    }
  }

  lemma SkipSlashesStops(t: string)
    ensures SkipSlashes(t) == "" || SkipSlashes(t)[0] != '/'
  {
  }

  /** The names of a path, empty ones dropped. */
  function Components(p: string): seq<string>
    decreases |p|
  {
    var t := SkipSlashes(p);
    NameLenStops(t);
    SkipSlashesStops(p);
    if t == "" then [] else [t[..NameLen(t)]] + Components(t[NameLen(t)..])
  }

  lemma {:induction false} ComponentsAreNames(p: string)
    ensures forall n :: n in Components(p) ==> IsName(n)
    decreases |p|
  {
    var t := SkipSlashes(p);
    if t != "" {
      NameLenStops(t);
      SkipSlashesStops(p);
      ComponentsAreNames(t[NameLen(t)..]);
    }
  }

  lemma ComponentsUnfold(p: string)
    ensures
      var t := SkipSlashes(p);
      Components(p) == if t == "" then [] else [t[..NameLen(t)]] + Components(t[NameLen(t)..])
    ensures Components(SkipSlashes(p)) == Components(p)
    ensures Components("/" + p) == Components(p)
  {
    assert ("/" + p)[1..] == p;
    assert SkipSlashes("/" + p) == SkipSlashes(p);
  }

  lemma NameLenConcat(t: string, s: string)
    ensures NameLen(t) < |t| ==> NameLen(t + s) == NameLen(t)
    ensures NameLen(t) == |t| && (s == "" || s[0] == '/') ==> NameLen(t + s) == |t|
  {
    if t == "" {
      assert t + s == s;
    } else if t[0] != '/' {
      NameLenConcat(t[1..], s);
      assert (t + s)[1..] == t[1..] + s;
    }
  }

  lemma SkipSlashesConcat(t: string, s: string)
    ensures SkipSlashes(t) != "" ==> SkipSlashes(t + s) == SkipSlashes(t) + s
    ensures SkipSlashes(t) == "" ==> SkipSlashes(t + s) == SkipSlashes(s)
  {
    if t == "" {
      assert t + s == s;
    } else if t[0] == '/' {
      SkipSlashesConcat(t[1..], s);
      assert (t + s)[1..] == t[1..] + s;
    }
  }

  /** Joining two paths with a slash joins their names. */
  lemma {:induction false} ComponentsConcat(a: string, b: string)
    requires b == "" || b[0] == '/'
    ensures Components(a + b) == Components(a) + Components(b)
    decreases |a|
  {
    hide Components;
    hide SkipSlashes;
    hide NameLen;
    var t := SkipSlashes(a);
    SkipSlashesConcat(a, b);
    ComponentsUnfold(a);
    ComponentsUnfold(b);
    ComponentsUnfold(a + b);
    if t != "" {
      var n := NameLen(t);
      NameLenConcat(t, b);
      assert (t + b)[..n] == t[..n] && (t + b)[n..] == t[n..] + b;
      NameLenStops(t);
      SkipSlashesStops(a);
      ComponentsConcat(t[n..], b);
      assert [t[..n]] + (Components(t[n..]) + Components(b)) == Components(a) + Components(b);
    }
  }

  lemma OneName(n: string)
    requires IsName(n)
    ensures Components(n) == [n]
  {
    NameLenStops(n);
    assert SkipSlashes(n) == n && NameLen(n) == |n|;
    assert n[..|n|] == n && n[|n|..] == "";
  }

  // ---------------------------------------------------------------------------
  // Walking
  // ---------------------------------------------------------------------------

  /** Where a walk stands: in the directory at the top of the stack, counted from the root or, once
      it has climbed past the root, from nowhere in particular. */
  datatype Walk = At(rooted: bool, stack: seq<string>) | Refused

  function Enter(w: Walk, name: string): Walk {
    match w
    case Refused => Refused
    case At(rooted, stack) =>
      if name == "." then w
      else if name != ".." then At(rooted, stack + [name])
      else if stack != [] then At(rooted, stack[..|stack| - 1])
      else if rooted then At(false, [])
      else Refused
  }

  function Visit(w: Walk, names: seq<string>): Walk
    decreases |names|
  {
    if names == [] then w else Visit(Enter(w, names[0]), names[1..])
  }

  function WalkPath(p: string): Walk {
    Visit(At(p != "" && p[0] == '/', []), Components(p))
  }

  lemma {:induction false} VisitConcat(w: Walk, a: seq<string>, b: seq<string>)
    ensures Visit(w, a + b) == Visit(Visit(w, a), b)
    decreases |a|
  {
    if a == [] {
      assert a + b == b;
    } else {
      VisitConcat(Enter(w, a[0]), a[1..], b);
      assert (a + b)[1..] == a[1..] + b;
    }
  }

  /** A directory the server can be in: no special names left. */
  predicate Proper(stack: seq<string>) {
    forall n :: n in stack ==> IsName(n) && n != "." && n != ".."
  }

  lemma EnterKeepsProper(w: Walk, name: string)
    requires (w.At? ==> Proper(w.stack)) && IsName(name)
    ensures Enter(w, name).At? ==> Proper(Enter(w, name).stack)
  {
    if w.At? && Enter(w, name).At? {
      forall n | n in Enter(w, name).stack
        ensures IsName(n) && n != "." && n != ".."
      {
        assert n in w.stack || n == name;
      }
    }
  }

  lemma {:induction false} VisitKeepsProper(w: Walk, names: seq<string>)
    requires w.At? ==> Proper(w.stack)
    requires forall n :: n in names ==> IsName(n)
    ensures Visit(w, names).At? ==> Proper(Visit(w, names).stack)
    decreases |names|
  {
    if names != [] {
      assert names[0] in names && forall n :: n in names[1..] ==> n in names;
      EnterKeepsProper(w, names[0]);
      VisitKeepsProper(Enter(w, names[0]), names[1..]);
    }
  }

  lemma {:induction false} VisitProper(rooted: bool, stack: seq<string>, names: seq<string>)
    requires Proper(names)
    ensures Visit(At(rooted, stack), names) == At(rooted, stack + names)
    decreases |names|
  {
    if names == [] {
      assert stack + names == stack;
    } else {
      assert names[0] in names;
      assert Enter(At(rooted, stack), names[0]) == At(rooted, stack + [names[0]]);
      VisitProper(rooted, stack + [names[0]], names[1..]);
      assert stack + [names[0]] + names[1..] == stack + names;
    }
  }

  /** No prefix of `names` leaves more ".." than there are directories to leave. */
  predicate NeverClimbs(depth: nat, names: seq<string>)
    decreases |names|
  {
    if names == [] then true
    else if names[0] == "." then NeverClimbs(depth, names[1..])
    else if names[0] == ".." then depth > 0 && NeverClimbs(depth - 1, names[1..])
    else NeverClimbs(depth + 1, names[1..])
  }

  /** A walk from the root ends up below the root exactly when it never climbs past it. */
  lemma {:induction false} RootedIffNeverClimbs(stack: seq<string>, names: seq<string>)
    ensures (Visit(At(true, stack), names).At? && Visit(At(true, stack), names).rooted) <==> NeverClimbs(|stack|, names)
    decreases |names|
  {
    if names == [] {
    } else if names[0] == ".." && stack == [] {
      StaysUnrooted([], names[1..]);
    } else {
      RootedIffNeverClimbs(Enter(At(true, stack), names[0]).stack, names[1..]);
    }
  }

  lemma {:induction false} StaysUnrooted(stack: seq<string>, names: seq<string>)
    ensures Visit(At(false, stack), names).At? ==> !Visit(At(false, stack), names).rooted
    decreases |names|
  {
    if names != [] {
      match Enter(At(false, stack), names[0])
      case Refused => RefusedStays(names[1..]);
      case At(_, s) => StaysUnrooted(s, names[1..]);
    }
  }

  lemma {:induction false} RefusedStays(names: seq<string>)
    ensures Visit(Refused, names) == Refused
  {
    if names != [] {
      RefusedStays(names[1..]);
    }
  }

  // ---------------------------------------------------------------------------
  // Writing a directory back as text
  // ---------------------------------------------------------------------------

  /** Every name followed by a slash. */
  function Dirs(rooted: bool, stack: seq<string>): (s: string)
    ensures s != "" ==> s[|s| - 1] == '/'
    ensures s == "" <==> !rooted && stack == []
  {
    if stack == [] then (if rooted then "/" else "")
    else Dirs(rooted, stack[..|stack| - 1]) + stack[|stack| - 1] + "/"
  }

  /** The canonical text: a slash between names, a leading one when rooted, no trailing one. */
  function Render(rooted: bool, stack: seq<string>): string {
    if stack == [] then (if rooted then "/" else "")
    else Dirs(rooted, stack[..|stack| - 1]) + stack[|stack| - 1]
  }

  lemma {:induction false} RenderNames(rooted: bool, stack: seq<string>)
    requires forall n :: n in stack ==> IsName(n)
    ensures Components(Dirs(rooted, stack)) == stack
    ensures Components(Render(rooted, stack)) == stack
    decreases |stack|
  {
    NoNames();
    if stack != [] {
      hide Components;
      var front, last := stack[..|stack| - 1], stack[|stack| - 1];
      RenderNames(rooted, front);
      TrailingSlash(Dirs(rooted, front), last);
      assert front + [last] == stack;
      ComponentsConcat(Render(rooted, stack), "/");
    }
  }

  lemma NoNames()
    ensures Components("") == [] && Components("/") == []
  {
    assert SkipSlashes("/") == "";
  }

  /** A name appended to a text that is empty or ends in a slash is one more component. */
  lemma TrailingSlash(d: string, n: string)
    requires IsName(n) && (d != "" ==> d[|d| - 1] == '/')
    ensures Components(d + n) == Components(d) + [n]
  {
    hide Components;
    OneName(n);
    NoNames();
    if d == "" {
      assert d + n == n;
    } else {
      var front := d[..|d| - 1];
      assert d == front + "/" && d + n == front + ("/" + n);
      ComponentsConcat(front, "/" + n);
      ComponentsConcat(front, "/");
      ComponentsUnfold(n);
    }
  }

  lemma RenderLeadingSlash(rooted: bool, stack: seq<string>)
    requires forall n :: n in stack ==> IsName(n)
    ensures (Render(rooted, stack) != "" && Render(rooted, stack)[0] == '/') <==> rooted
    ensures (Dirs(rooted, stack) != "" && Dirs(rooted, stack)[0] == '/') <==> rooted
    decreases |stack|
  {
    if stack != [] {
      var last := stack[|stack| - 1];
      assert IsName(last) && last[0] in last;
      RenderLeadingSlash(rooted, stack[..|stack| - 1]);
      assert Render(rooted, stack) <= Dirs(rooted, stack);
    }
  }

  // ---------------------------------------------------------------------------
  // The normaliser's verdict
  // ---------------------------------------------------------------------------

  /** What becomes of a path: a text, a refusal (a null pointer), a look one character before the start of
      the buffer, which is what happens when nothing is left to write, or a write past the buffer's end,
      which happens while the path is still being put together. */
  datatype Verdict = Path(text: string) | Null | BeforeBuffer | PastBuffer

  function Normalize(p: string): (v: Verdict)
    ensures !v.PastBuffer?
  {
    match WalkPath(p)
    case Refused => Null
    case At(rooted, stack) => if !rooted && stack == [] then BeforeBuffer else Path(Render(rooted, stack))
  }

  /** The texts the server means by "the current directory". */
  predicate IsDirectory(dir: string, stack: seq<string>) {
    Proper(stack) && dir == Render(true, stack)
  }

  lemma WalkDirectory(dir: string, stack: seq<string>)
    requires IsDirectory(dir, stack)
    ensures WalkPath(dir) == At(true, stack)
  {
    RenderNames(true, stack);
    RenderLeadingSlash(true, stack);
    VisitProper(true, [], stack);
    assert [] + stack == stack;
  }

  /** For every absolute path: the result is the canonical text of the directory the names lead to
      exactly when no prefix of the path climbs past the root. */
  lemma NormalizeAbsolute(p: string)
    requires p != "" && p[0] == '/'
    ensures NeverClimbs(0, Components(p)) ==>
      && WalkPath(p).At?
      && IsDirectory(Render(true, WalkPath(p).stack), WalkPath(p).stack)
      && Normalize(p) == Path(Render(true, WalkPath(p).stack))
    ensures
      (Normalize(p).Path? && exists stack :: IsDirectory(Normalize(p).text, stack)) <==> NeverClimbs(0, Components(p))
  {
    RootedIffNeverClimbs([], Components(p));
    ComponentsAreNames(p);
    VisitKeepsProper(At(true, []), Components(p));
    if Normalize(p).Path? {
      var w := WalkPath(p);
      RenderLeadingSlash(w.rooted, w.stack);
      forall stack | IsDirectory(Normalize(p).text, stack)
        ensures w.rooted
      {
        RenderLeadingSlash(true, stack);
      }
      if w.rooted {
        assert IsDirectory(Normalize(p).text, w.stack);
      }
    }
  }

  /** Normalising twice changes nothing. */
  lemma NormalizeIdempotent(p: string)
    requires p != "" && p[0] == '/' && NeverClimbs(0, Components(p))
    ensures Normalize(p).Path? && Normalize(Normalize(p).text) == Normalize(p)
  {
    NormalizeAbsolute(p);
    WalkDirectory(Normalize(p).text, WalkPath(p).stack);
  }

  /** What the condition rules out: the leading slash is lost, the result is a null pointer, or the
      buffer's start is overrun. */
  lemma ClimbingPathsFail()
    ensures Normalize("/../a") == Path("a")
    ensures Normalize("/../..") == Null
    ensures Normalize("/..") == BeforeBuffer
  {
    hide Components;
    ClimbingNames();
    assert Visit(At(true, []), [".."]) == At(false, []);
    assert Visit(At(false, []), ["a"]) == At(false, ["a"]);
    assert Visit(At(false, []), [".."]) == Refused;
    VisitConcat(At(true, []), [".."], ["a"]);
    VisitConcat(At(true, []), [".."], [".."]);
  }

  lemma ClimbingNames()
    ensures Components("/..") == [".."]
    ensures Components("/../a") == [".."] + ["a"]
    ensures Components("/../..") == [".."] + [".."]
  {
    hide Components;
    OneName("..");
    OneName("a");
    ComponentsUnfold("..");
    ComponentsUnfold("a");
    assert "/../a" == "/.." + "/a" && "/../.." == "/.." + "/..";
    assert "/.." == "/" + ".." && "/a" == "/" + "a";
    ComponentsConcat("/..", "/a");
    ComponentsConcat("/..", "/..");
  }

  // ---------------------------------------------------------------------------
  // Lengths
  // ---------------------------------------------------------------------------

  /** The length of names written with a slash each. */
  function TextLen(names: seq<string>): nat {
    if names == [] then 0 else |names[0]| + 1 + TextLen(names[1..])
  }

  lemma {:induction false} TextLenConcat(a: seq<string>, b: seq<string>)
    ensures TextLen(a + b) == TextLen(a) + TextLen(b)
    decreases |a|
  {
    if a == [] {
      assert a + b == b;
    } else {
      assert (a + b)[0] == a[0] && (a + b)[1..] == a[1..] + b;
      TextLenConcat(a[1..], b);
    }
  }

  lemma {:induction false} DirsLen(rooted: bool, stack: seq<string>)
    ensures |Dirs(rooted, stack)| == (if rooted then 1 else 0) + TextLen(stack)
    decreases |stack|
  {
    if stack != [] {
      var front, last := stack[..|stack| - 1], stack[|stack| - 1];
      DirsLen(rooted, front);
      TextLenConcat(front, [last]);
      assert front + [last] == stack;
    }
  }

  lemma {:induction false} ComponentsLen(p: string)
    ensures TextLen(Components(p)) <= |p| + (if p != "" && p[0] == '/' then 0 else 1)
    decreases |p|
  {
    var t := SkipSlashes(p);
    if t != "" {
      NameLenStops(t);
      SkipSlashesStops(p);
      var rest := t[NameLen(t)..];
      assert rest != "" ==> rest[0] == '/';
      ComponentsLen(rest);
      if rest == "" {
        NoNames();
      }
    }
  }

  lemma {:induction false} VisitLen(stack: seq<string>, names: seq<string>)
    requires NeverClimbs(|stack|, names)
    ensures
      var w := Visit(At(true, stack), names);
      w.At? && TextLen(w.stack) <= TextLen(stack) + TextLen(names)
    decreases |names|
  {
    if names != [] {
      var next := Enter(At(true, stack), names[0]).stack;
      if names[0] == ".." {
        assert stack == next + [stack[|stack| - 1]];
        TextLenConcat(next, [stack[|stack| - 1]]);
      } else if names[0] != "." {
        TextLenConcat(stack, [names[0]]);
      }
      VisitLen(next, names[1..]);
    }
  }

  /** Normalising never makes a path longer. */
  lemma NormalizeShortens(p: string)
    requires p != "" && p[0] == '/' && NeverClimbs(0, Components(p))
    ensures Normalize(p).Path? && |Normalize(p).text| <= |p|
  {
    NormalizeAbsolute(p);
    ComponentsLen(p);
    VisitLen([], Components(p));
    RenderLen(WalkPath(p).stack);
  }

  lemma RenderLen(stack: seq<string>)
    ensures |Render(true, stack)| == if stack == [] then 1 else TextLen(stack)
  {
    if stack != [] {
      var front, last := stack[..|stack| - 1], stack[|stack| - 1];
      DirsLen(true, front);
      TextLenConcat(front, [last]);
      assert front + [last] == stack;
    }
  }

  // ---------------------------------------------------------------------------
  // Changing directory
  // ---------------------------------------------------------------------------

  predicate Relative(path: string) {
    path == "" || path[0] != '/'
  }

  /** The slash the code puts behind the directory, for a relative argument, stays inside the buffer. */
  predicate HasRoom(dir: string, path: string, bufsz: nat) {
    bufsz > 1 && (Relative(path) ==> |dir| + 1 < bufsz)
  }

  /** What of the argument fits into the buffer; the rest is silently cut off. */
  function Cut(dir: string, path: string, bufsz: nat): string
    requires HasRoom(dir, path, bufsz)
  {
    path[..Min(|path|, if Relative(path) then bufsz - |dir| - 2 else bufsz - 1)]
  }

  predicate Fits(dir: string, path: string, bufsz: nat) {
    HasRoom(dir, path, bufsz) && Cut(dir, path, bufsz) == path
  }

  /** The text handed to the normaliser. */
  function FullPath(dir: string, path: string, bufsz: nat): string
    requires HasRoom(dir, path, bufsz)
  {
    if Relative(path) then dir + "/" + Cut(dir, path, bufsz) else Cut(dir, path, bufsz)
  }

  /** What a CWD with this argument makes of the current directory. */
  function Change(dir: string, path: string, bufsz: nat): Verdict {
    if HasRoom(dir, path, bufsz) then Normalize(FullPath(dir, path, bufsz)) else PastBuffer
  }

  /** The directory stack a CWD argument starts from. */
  function Base(stack: seq<string>, path: string): seq<string> {
    if Relative(path) then stack else []
  }

  /** The names a CWD argument contributes. */
  function Names(dir: string, path: string, bufsz: nat): seq<string>
    requires HasRoom(dir, path, bufsz)
  {
    Components(Cut(dir, path, bufsz))
  }

  lemma FitsExact(dir: string, path: string, bufsz: nat)
    requires bufsz > 1
    ensures Fits(dir, path, bufsz) <==> if Relative(path) then |dir| + 1 + |path| < bufsz else |path| < bufsz
  {
    if HasRoom(dir, path, bufsz) {
      assert Cut(dir, path, bufsz) == path <==> |Cut(dir, path, bufsz)| == |path|;
    }
  }

  /** Of an argument that does not fit, as much is kept as does. */
  lemma CutExact(dir: string, path: string, bufsz: nat)
    requires bufsz > 1 && (Relative(path) ==> |dir| + 1 < bufsz)
    ensures HasRoom(dir, path, bufsz)
    ensures
      var cut := Cut(dir, path, bufsz);
      && cut <= path
      && (if Relative(path) then |cut| == Min(|path|, bufsz - 1 - |dir| - 1) else |cut| == Min(|path|, bufsz - 1))
  {
  }

  lemma WalkFullPath(dir: string, stack: seq<string>, path: string, bufsz: nat)
    requires IsDirectory(dir, stack) && HasRoom(dir, path, bufsz)
    ensures WalkPath(FullPath(dir, path, bufsz)) == Visit(At(true, Base(stack, path)), Names(dir, path, bufsz))
    ensures FullPath(dir, path, bufsz) != "" && FullPath(dir, path, bufsz)[0] == '/'
  {
    hide Components;
    hide Render;
    var arg := Cut(dir, path, bufsz);
    if Relative(path) {
      assert FullPath(dir, path, bufsz) == dir + ("/" + arg);
      RenderLeadingSlash(true, stack);
      ComponentsConcat(dir, "/" + arg);
      RenderNames(true, stack);
      ComponentsUnfold(arg);
      VisitConcat(At(true, []), stack, Components(arg));
      VisitProper(true, [], stack);
      assert [] + stack == stack;
    }
  }

  /** One CWD, from any directory with any argument: the new directory is canonical exactly when the names
      that fit never climb past the root, and then it is where they lead; the buffer's end is overrun exactly
      by a relative argument in a directory that leaves no room for a slash. */
  lemma CwdIsWalk(dir: string, stack: seq<string>, path: string, bufsz: nat)
    requires IsDirectory(dir, stack) && bufsz > 1
    ensures Change(dir, path, bufsz) == PastBuffer <==> Relative(path) && |dir| >= bufsz - 1
    ensures HasRoom(dir, path, bufsz) ==>
      var v, names := Change(dir, path, bufsz), Names(dir, path, bufsz);
      var w := Visit(At(true, Base(stack, path)), names);
      && (NeverClimbs(|Base(stack, path)|, names) ==>
            w.At? && v == Path(Render(true, w.stack)) && IsDirectory(v.text, w.stack)
            && |v.text| <= |FullPath(dir, path, bufsz)|)
      && ((v.Path? && exists s :: IsDirectory(v.text, s)) <==> NeverClimbs(|Base(stack, path)|, names))
  {
    if HasRoom(dir, path, bufsz) {
      var base, names := Base(stack, path), Names(dir, path, bufsz);
      var w := Visit(At(true, base), names);
      WalkFullPath(dir, stack, path, bufsz);
      RootedIffNeverClimbs(base, names);
      ComponentsAreNames(Cut(dir, path, bufsz));
      VisitKeepsProper(At(true, base), names);
      var v := Change(dir, path, bufsz);
      if v.Path? {
        RenderLeadingSlash(w.rooted, w.stack);
        forall s | IsDirectory(v.text, s)
          ensures w.rooted
        {
          RenderLeadingSlash(true, s);
        }
      }
      if NeverClimbs(|base|, names) {
        assert IsDirectory(v.text, w.stack);
        NormalizeAbsolute(FullPath(dir, path, bufsz));
        NormalizeShortens(FullPath(dir, path, bufsz));
      }
    }
  }

  /** A run of CWD commands (CDUP is CWD ".."): the directory stack it leads to, or None once an argument
      finds no room or climbs past the root. */
  function Run(stack: seq<string>, args: seq<string>, bufsz: nat): Option<seq<string>>
    decreases |args|
  {
    var dir := Render(true, stack);
    if args == [] then Some(stack)
    else if !HasRoom(dir, args[0], bufsz) then None
    else if !NeverClimbs(|Base(stack, args[0])|, Names(dir, args[0], bufsz)) then None
    else
      match Visit(At(true, Base(stack, args[0])), Names(dir, args[0], bufsz))
      case Refused => None
      case At(_, s) => Run(s, args[1..], bufsz)
  }

  /** The same run on the server's text, or None once it no longer yields one. */
  function RunText(dir: string, args: seq<string>, bufsz: nat): Option<string>
    decreases |args|
  {
    if args == [] then Some(dir)
    else
      match Change(dir, args[0], bufsz)
      case Path(text) => RunText(text, args[1..], bufsz)
      case _ => None
  }

  /** Over every run that keeps its room and never climbs past the root, the current directory stays
      canonical and is the one the stack machine is in. */
  lemma {:induction false} RunStaysCanonical(dir: string, stack: seq<string>, args: seq<string>, bufsz: nat)
    requires IsDirectory(dir, stack) && Run(stack, args, bufsz).Some?
    ensures RunText(dir, args, bufsz).Some?
    ensures IsDirectory(RunText(dir, args, bufsz).value, Run(stack, args, bufsz).value)
    decreases |args|
  {
    hide Components;
    hide Normalize;
    if args != [] {
      CwdIsWalk(dir, stack, args[0], bufsz);
      var w := Visit(At(true, Base(stack, args[0])), Names(dir, args[0], bufsz));
      RunStaysCanonical(Render(true, w.stack), w.stack, args[1..], bufsz);
    }
  }

  /** CWD a, then CWD b leads where CWD a/b leads. */
  lemma CwdTwice(dir: string, stack: seq<string>, a: string, b: string, bufsz: nat)
    requires IsDirectory(dir, stack) && Relative(a) && Relative(b) && a != ""
    requires bufsz > 1 && Fits(dir, a + "/" + b, bufsz) && NeverClimbs(|stack|, Components(a + "/" + b))
    ensures
      var first := Change(dir, a, bufsz);
      && first.Path? && Fits(first.text, b, bufsz)
      && Change(first.text, b, bufsz) == Change(dir, a + "/" + b, bufsz)
  {
    hide Components;
    hide Render;
    hide Normalize;
    hide Visit;
    hide NeverClimbs;
    hide Proper;
    var ab := a + "/" + b;
    assert Relative(ab) && ab == a + ("/" + b);
    ComponentsConcat(a, "/" + b);
    ComponentsUnfold(b);
    VisitConcat(At(true, stack), Components(a), Components(b));
    NeverClimbsPrefix(|stack|, Components(a), Components(b));
    FitsExact(dir, a, bufsz);
    FitsExact(dir, ab, bufsz);
    CwdIsWalk(dir, stack, a, bufsz);
    CwdIsWalk(dir, stack, ab, bufsz);
    var w := Visit(At(true, stack), Components(a));
    RootedIffNeverClimbs(stack, Components(a));
    RootedIffNeverClimbs(stack, Components(ab));
    RootedIffNeverClimbs(w.stack, Components(b));
    var first := Change(dir, a, bufsz).text;
    FitsExact(first, b, bufsz);
    CwdIsWalk(first, w.stack, b, bufsz);
  }

  lemma {:induction false} NeverClimbsPrefix(depth: nat, a: seq<string>, b: seq<string>)
    requires NeverClimbs(depth, a + b)
    ensures NeverClimbs(depth, a)
    decreases |a|
  {
    if a != [] {
      assert (a + b)[1..] == a[1..] + b;
      NeverClimbsPrefix(if a[0] == "." then depth else if a[0] == ".." then depth - 1 else depth + 1, a[1..], b);
    }
  }

  /** Going down to a plain name. */
  lemma DownToName(dir: string, stack: seq<string>, name: string, bufsz: nat)
    requires IsDirectory(dir, stack) && IsName(name) && name != "." && name != ".."
    requires bufsz > 1 && Fits(dir, name, bufsz)
    ensures
      var down := Render(true, stack + [name]);
      && Change(dir, name, bufsz) == Path(down) && IsDirectory(down, stack + [name])
      && |down| == (if stack == [] then 0 else |dir|) + 1 + |name|
  {
    hide Components;
    hide Normalize;
    OneName(name);
    assert Relative(name) by {
      assert name[0] in name;
    }
    assert Visit(At(true, stack), [name]) == At(true, stack + [name]);
    CwdIsWalk(dir, stack, name, bufsz);
    RenderLen(stack);
    RenderLen(stack + [name]);
    TextLenConcat(stack, [name]);
  }

  /** CDUP undoes a CWD to a plain name exactly when the lower directory leaves room for "/..". With less it
      stays where it is, or overruns the buffer. */
  lemma CdupUndoesCwd(dir: string, stack: seq<string>, name: string, bufsz: nat)
    requires IsDirectory(dir, stack) && IsName(name) && name != "." && name != ".."
    requires bufsz > 1 && Fits(dir, name, bufsz)
    ensures
      var down := Change(dir, name, bufsz);
      && down.Path? && |down.text| == (if stack == [] then 0 else |dir|) + 1 + |name|
      && Change(down.text, "..", bufsz) ==
           if |down.text| + 3 < bufsz then Path(dir)
           else if |down.text| + 1 < bufsz then down
           else PastBuffer
  {
    hide Components;
    hide Render;
    hide Normalize;
    DownToName(dir, stack, name, bufsz);
    var down, names := Change(dir, name, bufsz).text, stack + [name];
    CwdIsWalk(down, names, "..", bufsz);
    if |down| + 1 < bufsz {
      var arg := Cut(down, "..", bufsz);
      assert arg == if |down| + 3 < bufsz then ".." else if |down| + 2 < bufsz then "." else "";
      UpOrStay(stack, name, arg);
    }
  }

  lemma UpOrStay(stack: seq<string>, name: string, arg: string)
    requires arg == ".." || arg == "." || arg == ""
    ensures
      var names := stack + [name];
      && NeverClimbs(|names|, Components(arg))
      && Visit(At(true, names), Components(arg)) == At(true, if arg == ".." then stack else names)
  {
    hide Components;
    assert (stack + [name])[..|stack|] == stack;
    if arg == "" {
      NoNames();
    } else {
      OneName(arg);
    }
  }

  /** The buffer can be overrun without ever climbing: from the root, two CWDs to plain names that together
      fill it, and then any relative argument. */
  lemma OverrunReachable(a: string, b: string, path: string, bufsz: nat)
    requires IsName(a) && a != "." && a != ".." && IsName(b) && b != "." && b != ".."
    requires |a| + |b| + 3 == bufsz && Relative(path)
    ensures
      && RunText("/", ["/" + a, b], bufsz) == Some("/" + a + "/" + b)
      && Change("/" + a + "/" + b, path, bufsz) == PastBuffer
      && IsDirectory("/" + a + "/" + b, [a, b])
  {
    hide Components;
    hide Normalize;
    hide RunText;
    var half, full := "/" + a, "/" + a + "/" + b;
    FirstDirectory(a, bufsz);
    NotSlash(b);
    FitsExact(half, b, bufsz);
    DownToName(half, [a], b, bufsz);
    TwoNames(a, b);
    assert [half, b][0] == half && [half, b][1..] == [b] && [b][1..] == [];
    RunTextStep("/", [half, b], bufsz);
    RunTextStep(half, [b], bufsz);
    RunTextStep(full, [], bufsz);
    CwdIsWalk(full, [a, b], path, bufsz);
  }

  lemma RunTextStep(dir: string, args: seq<string>, bufsz: nat)
    ensures args == [] ==> RunText(dir, args, bufsz) == Some(dir)
    ensures args != [] && Change(dir, args[0], bufsz).Path? ==>
              RunText(dir, args, bufsz) == RunText(Change(dir, args[0], bufsz).text, args[1..], bufsz)
  {
    hide Change;
  }

  lemma TwoNames(a: string, b: string)
    ensures [a] + [b] == [a, b] && Render(true, [a]) == "/" + a && Render(true, [a, b]) == "/" + a + "/" + b
  {
    assert [a, b][..1] == [a] && [a][..0] == [];
  }

  lemma FirstDirectory(a: string, bufsz: nat)
    requires IsName(a) && a != "." && a != ".." && |a| + 1 < bufsz
    ensures Change("/", "/" + a, bufsz) == Path("/" + a) && IsDirectory("/" + a, [a])
  {
    hide Components;
    hide Normalize;
    AbsoluteName(a);
    FitsExact("/", "/" + a, bufsz);
    CwdIsWalk("/", [], "/" + a, bufsz);
    assert Render(true, [a]) == "/" + a by {
      assert [a][..0] == [];
    }
  }

  lemma NotSlash(n: string)
    requires IsName(n)
    ensures Relative(n)
  {
    assert n[0] in n;
  }

  lemma AbsoluteName(n: string)
    requires IsName(n) && n != "." && n != ".."
    ensures Components("/" + n) == [n] && NeverClimbs(0, [n]) && Visit(At(true, []), [n]) == At(true, [n])
  {
    hide Components;
    OneName(n);
    ComponentsUnfold(n);
    assert [] + [n] == [n];
  }

  // ---------------------------------------------------------------------------
  // Known answers
  // ---------------------------------------------------------------------------

  lemma OneMoreName(name: string, rest: string)
    requires IsName(name)
    ensures Components(name + "/" + rest) == [name] + Components(rest)
  {
    hide Components;
    assert name + "/" + rest == name + ("/" + rest);
    ComponentsConcat(name, "/" + rest);
    OneName(name);
    ComponentsUnfold(rest);
  }

  lemma KnownLastNames()
    ensures Components("cd/./") == ["cd", "."]
  {
    hide Components;
    NoNames();
    OneMoreName(".", "");
    assert "." + "/" + "" == "./";
    OneMoreName("cd", "./");
    assert "cd" + "/" + "./" == "cd/./";
  }

  lemma KnownNames()
    ensures Components("/b/../cd/./") == ["b", "..", "cd", "."]
  {
    hide Components;
    KnownLastNames();
    OneMoreName("..", "cd/./");
    assert ".." + "/" + "cd/./" == "../cd/./";
    OneMoreName("b", "../cd/./");
    assert "b" + "/" + "../cd/./" == "b/../cd/./";
    ComponentsUnfold("b/../cd/./");
    assert "/" + "b/../cd/./" == "/b/../cd/./";
  }

  lemma KnownComponents()
    ensures Components("/a//b/../cd/./") == ["a", "b", "..", "cd", "."]
  {
    hide Components;
    KnownNames();
    OneMoreName("a", "/b/../cd/./");
    assert "a" + "/" + "/b/../cd/./" == "a//b/../cd/./";
    ComponentsUnfold("a//b/../cd/./");
    assert "/" + "a//b/../cd/./" == "/a//b/../cd/./";
  }

  lemma KnownWalk()
    ensures Visit(At(true, []), ["a", "b", "..", "cd", "."]) == At(true, ["a", "cd"])
  {
    var root := At(true, []);
    assert Enter(root, "a") == At(true, ["a"]) && Enter(At(true, ["a"]), "b") == At(true, ["a", "b"]);
    assert ["a", "b"][..1] == ["a"];
    assert Enter(At(true, ["a", "b"]), "..") == At(true, ["a"]);
    assert Enter(At(true, ["a"]), "cd") == At(true, ["a", "cd"]);
    assert Enter(At(true, ["a", "cd"]), ".") == At(true, ["a", "cd"]);
    hide Enter;
    assert Visit(At(true, ["a", "cd"]), []) == At(true, ["a", "cd"]);
    assert Visit(At(true, ["a", "cd"]), ["."]) == At(true, ["a", "cd"]);
    assert Visit(At(true, ["a"]), ["cd", "."]) == At(true, ["a", "cd"]);
    assert Visit(At(true, ["a", "b"]), ["..", "cd", "."]) == At(true, ["a", "cd"]);
    assert Visit(At(true, ["a"]), ["b", "..", "cd", "."]) == At(true, ["a", "cd"]);
  }

  lemma KnownRender()
    ensures Render(true, ["a", "cd"]) == "/a/cd"
  {
    assert ["a", "cd"][..1] == ["a"] && ["a"][..0] == [];
    assert Dirs(true, []) == "/" && Dirs(true, ["a"]) == "/a/";
  }

  /** A path with everything in it that is to go. */
  lemma KnownPath()
    ensures Normalize("/a//b/../cd/./") == Path("/a/cd")
  {
    hide Components;
    hide Visit;
    hide Render;
    KnownComponents();
    KnownWalk();
    KnownRender();
  }
}
