/** The history log: records go to the latest of a ring of files named by their time of creation; when
    a file is full a new one is created, and when there are ten the oldest goes. */
module HistoryRing {
  import opened Words

  const MAX_FILE_SIZE: nat := 0x10_0000
  const MAX_FILE_NUM: nat := 10

  type Files = map<nat, Bytes>

  // ---------------------------------------------------------------------------
  // The files in order of time
  // ---------------------------------------------------------------------------

  ghost predicate IsLatest(stamps: set<nat>, m: nat) {
    m in stamps && forall k :: k in stamps ==> k <= m
  }

  ghost predicate IsOldest(stamps: set<nat>, m: nat) {
    m in stamps && forall k :: k in stamps ==> m <= k
  }

  lemma {:induction false} LatestExists(stamps: set<nat>) returns (m: nat)
    requires stamps != {}
    ensures IsLatest(stamps, m)
    decreases |stamps|
  {
    m :| m in stamps;
    if stamps != {m} {
      var rest := stamps - {m};
      assert rest != {};
      var n := LatestExists(rest);
      m := if m < n then n else m;
      assert forall k :: k in stamps ==> k in rest || k <= m;
    }
  }

  lemma {:induction false} OldestExists(stamps: set<nat>) returns (m: nat)
    requires stamps != {}
    ensures IsOldest(stamps, m)
    decreases |stamps|
  {
    m :| m in stamps;
    if stamps != {m} {
      var rest := stamps - {m};
      assert rest != {};
      var n := OldestExists(rest);
      m := if n < m then n else m;
      assert forall k :: k in stamps ==> k in rest || m <= k;
    }
  }

  ghost function Latest(stamps: set<nat>): (m: nat)
    requires stamps != {}
    ensures IsLatest(stamps, m)
  {
    assert exists m :: IsLatest(stamps, m) by {
      var m := LatestExists(stamps);
    }
    var m :| IsLatest(stamps, m);
    m
  }

  ghost function Oldest(stamps: set<nat>): (m: nat)
    requires stamps != {}
    ensures IsOldest(stamps, m)
  {
    assert exists m :: IsOldest(stamps, m) by {
      var m := OldestExists(stamps);
    }
    var m :| IsOldest(stamps, m);
    m
  }

  /** Everything on file, oldest first. */
  ghost function Contents(files: Files): Bytes
    decreases |files|
  {
    if files == map[] then []
    else
      var m := Latest(files.Keys);
      assert |files - {m}| < |files| by {
        FewerFiles(files, m);
      }
      Contents(files - {m}) + files[m]
  }

  lemma FewerFiles(files: Files, m: nat)
    requires m in files
    ensures |files - {m}| == |files| - 1
  {
    assert (files - {m}).Keys == files.Keys - {m};
    assert |(files - {m}).Keys| == |files - {m}| && |files.Keys| == |files|;
  }

  lemma OneMoreFile(files: Files, m: nat, data: Bytes)
    requires m !in files
    ensures |files[m := data]| == |files| + 1
  {
    FewerFiles(files[m := data], m);
    assert files[m := data] - {m} == files;
  }

  lemma LatestIs(stamps: set<nat>, m: nat)
    requires IsLatest(stamps, m)
    ensures Latest(stamps) == m
  {
  }

  lemma WriteToLatest(files: Files, data: Bytes)
    requires files != map[]
    ensures
      var m := Latest(files.Keys);
      var after := files[m := files[m] + data];
      && Contents(after) == Contents(files) + data
      && after.Keys == files.Keys && |after| == |files|
  {
    var m := Latest(files.Keys);
    var after := files[m := files[m] + data];
    assert after.Keys == files.Keys;
    assert after - {m} == files - {m};
    assert |after.Keys| == |after| && |files.Keys| == |files|;
  }

  ghost predicate Fresh(files: Files, t: nat) {
    t > 0 && forall k :: k in files ==> k < t
  }

  lemma CreateLatest(files: Files, t: nat, data: Bytes)
    requires Fresh(files, t)
    ensures
      var after := files[t := data];
      t in after.Keys && Contents(after) == Contents(files) + data && Latest(after.Keys) == t && |after| == |files| + 1
  {
    var after := files[t := data];
    LatestIs(after.Keys, t);
    assert after - {t} == files;
    OneMoreFile(files, t, data);
  }

  lemma {:induction false} DropOldest(files: Files)
    requires files != map[]
    ensures
      var o := Oldest(files.Keys);
      Contents(files) == files[o] + Contents(files - {o}) && |files - {o}| == |files| - 1
    decreases |files|
  {
    var o, m := Oldest(files.Keys), Latest(files.Keys);
    FewerFiles(files, o);
    FewerFiles(files, m);
    var rest := files - {m};
    if o == m {
      assert forall k :: k in files ==> k == m;
      assert rest == map[];
    } else {
      assert o in rest;
      assert Oldest(rest.Keys) == o;
      DropOldest(rest);
      assert rest - {o} == files - {o} - {m};
      assert m in files - {o};
      LatestIs((files - {o}).Keys, m);
      assert (files[o] + Contents(rest - {o})) + files[m] == files[o] + (Contents(rest - {o}) + files[m]);
    }
  }

  // ---------------------------------------------------------------------------
  // Recording
  // ---------------------------------------------------------------------------

  /** `fd` is the stamp of the open file; `fdOffset` survives its closing. `held` counts how often the thread
      that writes has locked the mutex without unlocking it. */
  datatype Log = Log(files: Files, fd: Option<nat>, fdOffset: nat, enabled: bool, held: nat)

  function Boot(files: Files): Log {
    Log(files, None, 0, false, 0)
  }

  /** The offset at hand says that the record does not fit. */
  predicate Full(s: Log, data: Bytes) {
    s.fdOffset + |data| > MAX_FILE_SIZE
  }

  /** A new file will be created for the record. */
  predicate Creates(s: Log, data: Bytes) {
    Full(s, data) || (s.fd.None? && (s.files == map[] || |s.files| > MAX_FILE_NUM))
  }

  ghost function OpenLatest(s: Log, create: bool, t: nat): Log {
    if s.files != map[] && |s.files| <= MAX_FILE_NUM && !create then
      var m := Latest(s.files.Keys);
      s.(fd := Some(m), fdOffset := |s.files[m]|)
    else
      var kept :=
        if s.files != map[] && |s.files| >= MAX_FILE_NUM then s.files - {Oldest(s.files.Keys)} else s.files;
      s.(files := kept[t := []], fd := Some(t), fdOffset := 0)
  }

  /** A record that is written. */
  ghost function Store(s: Log, data: Bytes, t: nat): Log {
    var s := if Full(s, data) then s.(fd := None) else s;
    var s := if s.fd.None? then OpenLatest(s, Full(s, data), t) else s;
    if s.fd.Some? && s.fd.value in s.files then
      s.(files := s.files[s.fd.value := s.files[s.fd.value] + data], fdOffset := s.fdOffset + |data|)
    else s
  }

  /** A record that arrives; while logging is disabled it leaves the mutex locked. */
  ghost function Write(s: Log, data: Bytes, t: nat): Log {
    if s.enabled then Store(s, data, t) else s.(held := s.held + 1)
  }

  /** Called by the thread that writes (`own`), the mutex lets it through even when it is still locked; called
      by another thread, it then never returns. */
  function EnableWrite(s: Log, enable: bool, own: bool): Log {
    if s.held > 0 && !own then s else s.(enabled := enable, fd := if enable then s.fd else None)
  }

  // ---------------------------------------------------------------------------
  // What one record does
  // ---------------------------------------------------------------------------

  /** The open file is the latest, and the offset its size; `used` says that a record has been written
      since boot. Before that the offset is 0, whatever the files. */
  ghost predicate InOrder(s: Log, used: bool) {
    && 0 !in s.files
    && (s.fd.Some? ==> used && s.files != map[] && s.fd.value == Latest(s.files.Keys))
    && (if used then s.files != map[] && s.fdOffset == |s.files[Latest(s.files.Keys)]| else s.fdOffset == 0)
  }

  predicate Drops(s: Log, data: Bytes) {
    Creates(s, data) && |s.files| >= MAX_FILE_NUM
  }

  ghost function Kept(s: Log, data: Bytes): Files {
    if Drops(s, data) && s.files != map[] then s.files - {Oldest(s.files.Keys)} else s.files
  }

  lemma StoreCases(s: Log, used: bool, data: Bytes, t: nat)
    requires InOrder(s, used)
    ensures
      var r := Store(s, data, t);
      if Creates(s, data) then
        r == Log(Kept(s, data)[t := data], Some(t), |data|, s.enabled, s.held)
      else
        && s.files != map[]
        && var m := Latest(s.files.Keys);
        r == Log(s.files[m := s.files[m] + data], Some(m), |s.files[m]| + |data|, s.enabled, s.held)
  {
    var empty: Bytes := [];
    assert empty + data == data;
    if Creates(s, data) {
      var kept: Files := Kept(s, data);
      assert kept[t := empty][t := data] == kept[t := data];
    }
  }

  /** A record is appended to what is on file; the only bytes ever lost are those of the oldest file, as a
      whole, and only when a file is created beside ten others. The open file is again the latest. */
  lemma RecordAppends(s: Log, used: bool, data: Bytes, t: nat)
    requires InOrder(s, used) && (Creates(s, data) ==> Fresh(s.files, t))
    ensures
      var r := Store(s, data, t);
      && InOrder(r, true) && r.fd.Some? && r.enabled == s.enabled && r.held == s.held
      && Contents(r.files) == Contents(Kept(s, data)) + data
      && (Drops(s, data) ==> Contents(s.files) == s.files[Oldest(s.files.Keys)] + Contents(Kept(s, data)))
      && |r.files| == |s.files| + (if Creates(s, data) && !Drops(s, data) then 1 else 0)
  {
    StoreCases(s, used, data, t);
    if Drops(s, data) {
      DropOldest(s.files);
    }
    if Creates(s, data) {
      CreateLatest(Kept(s, data), t, data);
    } else {
      WriteToLatest(s.files, data);
    }
  }

  /** The file a record goes to stays within its limit exactly unless a file found at the first opening
      has too little room for it: that file's size is not looked at before the record is written. */
  lemma LimitExact(s: Log, used: bool, data: Bytes, t: nat)
    requires InOrder(s, used) && |data| <= MAX_FILE_SIZE
    ensures
      var r := Store(s, data, t);
      && r.fd.Some? && r.fd.value in r.files
      && (|r.files[r.fd.value]| <= MAX_FILE_SIZE <==>
            used || Creates(s, data) || |s.files[Latest(s.files.Keys)]| + |data| <= MAX_FILE_SIZE)
  {
    StoreCases(s, used, data, t);
  }

  /** So a full file left by an earlier run grows past its limit with the first record after boot. */
  lemma FirstRecordOverflows(content: Bytes, data: Bytes, stamp: nat, t: nat)
    requires |content| == MAX_FILE_SIZE && 0 < |data| <= MAX_FILE_SIZE && stamp > 0
    ensures
      var r := Write(EnableWrite(Boot(map[stamp := content]), true, false), data, t);
      stamp in r.files && |r.files[stamp]| > MAX_FILE_SIZE
  {
    var files := map[stamp := content];
    assert files.Keys == {stamp};
    LatestIs(files.Keys, stamp);
    assert |files| == 1;
    StoreCases(EnableWrite(Boot(files), true, false), false, data, t);
  }

  // ---------------------------------------------------------------------------
  // Whole runs
  // ---------------------------------------------------------------------------

  /** `own` when the thread that writes the records makes the call, as it does for a register write. */
  datatype Event = Record(data: Bytes, time: nat) | Enable(on: bool, own: bool)

  ghost function Step(s: Log, e: Event): Log {
    match e
    case Record(data, time) => Write(s, data, time)
    case Enable(on, own) => EnableWrite(s, on, own)
  }

  ghost function Run(s: Log, events: seq<Event>): Log
    decreases |events|
  {
    if events == [] then s else Step(Run(s, events[..|events| - 1]), events[|events| - 1])
  }

  /** An event that is written. */
  predicate IsStored(s: Log, e: Event) {
    e.Record? && s.enabled
  }

  /** No record is larger than a file, and whenever a file is created the clock is ahead of all files. */
  ghost predicate Steady(s: Log, events: seq<Event>)
    decreases |events|
  {
    events != [] ==>
      var last := |events| - 1;
      var before, e := Run(s, events[..last]), events[last];
      && Steady(s, events[..last])
      && (IsStored(before, e) ==>
            |e.data| <= MAX_FILE_SIZE && (Creates(before, e.data) ==> Fresh(before.files, e.time)))
  }

  /** Everything written in a run. */
  ghost function Recorded(s: Log, events: seq<Event>): Bytes
    decreases |events|
  {
    if events == [] then []
    else
      var last := |events| - 1;
      Recorded(s, events[..last]) + if IsStored(Run(s, events[..last]), events[last]) then events[last].data else []
  }

  ghost predicate Used(s: Log, events: seq<Event>)
    decreases |events|
  {
    events != [] &&
      var last := |events| - 1;
      Used(s, events[..last]) || IsStored(Run(s, events[..last]), events[last])
  }

  ghost predicate IsSuffix(part: Bytes, whole: Bytes) {
    |part| <= |whole| && whole[|whole| - |part|..] == part
  }

  lemma SuffixKept(part: Bytes, whole: Bytes, dropped: Bytes, kept: Bytes, more: Bytes)
    requires IsSuffix(part, whole) && part == dropped + kept
    ensures IsSuffix(kept + more, whole + more)
  {
  }

  function Max(a: nat, b: nat): nat {
    if a < b then b else a
  }

  /** The files created in this run. */
  ghost predicate WithinLimit(before: Files, files: Files) {
    forall k :: k in files && k !in before ==> |files[k]| <= MAX_FILE_SIZE
  }

  /** `past` is all that has ever been recorded; `used` says that some of it was in this run. */
  ghost predicate Inv(before: Files, s: Log, past: Bytes, used: bool) {
    && InOrder(s, used) && (!used ==> s.files == before)
    && IsSuffix(Contents(s.files), past)
    && WithinLimit(before, s.files)
    && |s.files| <= Max(|before|, MAX_FILE_NUM)
  }

  lemma SuffixAfterRecord(s: Log, used: bool, data: Bytes, t: nat, past: Bytes)
    requires InOrder(s, used) && (Creates(s, data) ==> Fresh(s.files, t))
    requires IsSuffix(Contents(s.files), past)
    ensures IsSuffix(Contents(Store(s, data, t).files), past + data)
  {
    hide Store;
    hide Creates;
    hide IsSuffix;
    hide Contents;
    RecordAppends(s, used, data, t);
    var dropped := if Drops(s, data) then s.files[Oldest(s.files.Keys)] else [];
    assert Contents(s.files) == dropped + Contents(Kept(s, data));
    SuffixKept(Contents(s.files), past, dropped, Contents(Kept(s, data)), data);
  }

  lemma CountAfterRecord(before: Files, s: Log, used: bool, data: Bytes, t: nat)
    requires InOrder(s, used) && (Creates(s, data) ==> Fresh(s.files, t))
    requires |s.files| <= Max(|before|, MAX_FILE_NUM)
    ensures |Store(s, data, t).files| <= Max(|before|, MAX_FILE_NUM)
  {
    hide Store;
    hide Contents;
    RecordAppends(s, used, data, t);
  }

  lemma RecordWithinLimit(before: Files, s: Log, used: bool, data: Bytes, t: nat)
    requires InOrder(s, used) && WithinLimit(before, s.files) && |data| <= MAX_FILE_SIZE
    requires !used ==> s.files.Keys <= before.Keys
    ensures WithinLimit(before, Store(s, data, t).files)
  {
    StoreCases(s, used, data, t);
    LimitExact(s, used, data, t);
  }

  lemma StoreKeepsInv(before: Files, s: Log, past: Bytes, used: bool, data: Bytes, t: nat)
    requires Inv(before, s, past, used) && |data| <= MAX_FILE_SIZE
    requires Creates(s, data) ==> Fresh(s.files, t)
    ensures Inv(before, Store(s, data, t), past + data, true)
  {
    hide Store;
    hide Creates;
    hide Drops;
    hide Fresh;
    hide InOrder;
    hide IsSuffix;
    hide Contents;
    hide WithinLimit;
    RecordAppends(s, used, data, t);
    RecordWithinLimit(before, s, used, data, t);
    CountAfterRecord(before, s, used, data, t);
    SuffixAfterRecord(s, used, data, t, past);
  }

  /** Over any steady run from any files: what is on file, oldest first, is the end of all that was ever
      recorded; the open file is the latest; the files created in the run keep their limit; and the number
      of files does not grow past ten, or past what it was. */
  lemma {:induction false} RingKeepsSuffix(before: Files, events: seq<Event>)
    requires 0 !in before && Steady(Boot(before), events)
    ensures
      var start := Boot(before);
      Inv(before, Run(start, events), Contents(before) + Recorded(start, events), Used(start, events))
    decreases |events|
  {
    hide Store;
    hide Contents;
    hide WithinLimit;
    hide Creates;
    hide Fresh;
    if events != [] {
      var last, start := |events| - 1, Boot(before);
      var s, past := Run(start, events[..last]), Contents(before) + Recorded(start, events[..last]);
      var used := Used(start, events[..last]);
      RingKeepsSuffix(before, events[..last]);
      if IsStored(s, events[last]) {
        var data := events[last].data;
        hide Inv;
        StoreKeepsInv(before, s, past, used, data, events[last].time);
        assert past + data == Contents(before) + (Recorded(start, events[..last]) + data);
      } else {
        assert Recorded(start, events) == Recorded(start, events[..last]);
        assert Used(start, events) == used;
        StandsStill(before, s, past, used, events[last]);
      }
    } else {
      BootInv(before);
      assert Contents(before) + Recorded(Boot(before), events) == Contents(before);
    }
  }

  lemma BootInv(before: Files)
    requires 0 !in before
    ensures Inv(before, Boot(before), Contents(before), false)
  {
    hide Contents;
  }

  lemma StandsStill(before: Files, s: Log, past: Bytes, used: bool, e: Event)
    requires Inv(before, s, past, used) && !IsStored(s, e)
    ensures Inv(before, Step(s, e), past, used)
  {
    hide Contents;
    hide WithinLimit;
    hide IsSuffix;
  }

  /** What brings logging back: enabling it from the thread that writes. */
  const REVIVAL: Event := Enable(true, true)

  /** After a record that arrived while logging was disabled the mutex stays locked for good; until logging is
      enabled from the thread that writes, it stays disabled and no file changes. */
  lemma {:induction false} LockedOut(s: Log, events: seq<Event>)
    requires s.held > 0
    ensures
      var r := Run(s, events);
      && r.held >= s.held
      && (!s.enabled && REVIVAL !in events ==> r.files == s.files && !r.enabled)
    decreases |events|
  {
    hide Store;
    if events != [] {
      var last := |events| - 1;
      assert events[last] in events && forall e :: e in events[..last] ==> e in events;
      LockedOut(s, events[..last]);
      if events[last].Record? {
        StoreKeepsHeld(Run(s, events[..last]), events[last].data, events[last].time);
      }
    }
  }

  /** After a record that arrives while logging is disabled, whatever happens later: logging is enabled again at
      some point if and only if the thread that writes makes a call that enables it. Calls of other threads have
      no effect any more. */
  lemma RevivedExact(s: Log, data: Bytes, t: nat, events: seq<Event>)
    requires !s.enabled
    ensures
      var locked := Write(s, data, t);
      (exists k :: 0 <= k <= |events| && Run(locked, events[..k]).enabled) <==> REVIVAL in events
  {
    var locked := Write(s, data, t);
    if REVIVAL in events {
      var i :| 0 <= i < |events| && events[i] == REVIVAL;
      assert events[..i + 1][..i] == events[..i] && events[..i + 1][i] == REVIVAL;
      assert Run(locked, events[..i + 1]) == EnableWrite(Run(locked, events[..i]), true, true);
    } else {
      forall k | 0 <= k <= |events|
        ensures !Run(locked, events[..k]).enabled
      {
        LockedOut(locked, events[..k]);
      }
    }
  }

  /** Another thread that enables or disables logging never gets through once the mutex has been left locked. */
  lemma OthersBlocked(s: Log, data: Bytes, t: nat, events: seq<Event>, on: bool)
    requires !s.enabled
    ensures
      var r := Run(Write(s, data, t), events);
      r.held > 0 && EnableWrite(r, on, false) == r
  {
    LockedOut(Write(s, data, t), events);
  }

  /** As long as every record arrives while logging is enabled, the mutex is never left locked. */
  lemma {:induction false} EnabledRecordsUnlock(s: Log, events: seq<Event>)
    requires s.held == 0
    ensures Run(s, events).held == 0 <==> RecordsEnabled(s, events)
    decreases |events|
  {
    hide Store;
    if events != [] {
      var last := |events| - 1;
      EnabledRecordsUnlock(s, events[..last]);
      if events[last].Record? && Run(s, events[..last]).enabled {
        StoreKeepsHeld(Run(s, events[..last]), events[last].data, events[last].time);
      }
    }
  }

  ghost predicate RecordsEnabled(s: Log, events: seq<Event>)
    decreases |events|
  {
    events != [] ==>
      var last := |events| - 1;
      RecordsEnabled(s, events[..last]) && (events[last].Record? ==> Run(s, events[..last]).enabled)
  }

  lemma StoreKeepsHeld(s: Log, data: Bytes, t: nat)
    ensures Store(s, data, t).held == s.held
  {
  }

  /** The mutex has been left locked once for every record that arrived while logging was disabled. */
  lemma {:induction false} HeldCountsMissed(s: Log, events: seq<Event>)
    ensures Run(s, events).held == s.held + Missed(s, events)
    decreases |events|
  {
    hide Store;
    if events != [] {
      var last := |events| - 1;
      HeldCountsMissed(s, events[..last]);
      if events[last].Record? && Run(s, events[..last]).enabled {
        StoreKeepsHeld(Run(s, events[..last]), events[last].data, events[last].time);
      }
    }
  }

  ghost function Missed(s: Log, events: seq<Event>): nat
    decreases |events|
  {
    if events == [] then 0
    else
      var last := |events| - 1;
      Missed(s, events[..last]) + if events[last].Record? && !Run(s, events[..last]).enabled then 1 else 0
  }

  /** While logging is disabled, as it is from boot until it is enabled, no file is open. */
  lemma {:induction false} ClosedWhileDisabled(files: Files, events: seq<Event>)
    ensures
      var r := Run(Boot(files), events);
      && (!r.enabled ==> r.fd.None?)
      && ((forall e :: e in events && e.Enable? ==> !e.on) ==> !r.enabled && r.files == files)
    decreases |events|
  {
    hide Store;
    if events != [] {
      var last := |events| - 1;
      assert events[last] in events && forall e :: e in events[..last] ==> e in events;
      ClosedWhileDisabled(files, events[..last]);
      if events[last].Record? {
        StoreKeepsEnabled(Run(Boot(files), events[..last]), events[last].data, events[last].time);
      }
    }
  }

  lemma StoreKeepsEnabled(s: Log, data: Bytes, t: nat)
    ensures Store(s, data, t).enabled == s.enabled
  {
  }

  // ---------------------------------------------------------------------------
  // How much is kept
  // ---------------------------------------------------------------------------

  /** A record goes to the latest file, and the files stay the same ones, if and only if it fits there by the file's
      real size; except that among more than ten files one that is not open is not opened again. The first record
      since boot goes to the latest file if and only if there are between one and ten. Otherwise a new file is begun
      with it. */
  lemma SameFilesExact(s: Log, used: bool, data: Bytes, t: nat)
    requires InOrder(s, used) && s.enabled && Fresh(s.files, t) && |data| <= 1024 * 1024
    ensures
      var r := Write(s, data, t);
      && (r.files.Keys == s.files.Keys <==>
            if used then |s.files[Latest(s.files.Keys)]| + |data| <= 1024 * 1024 && (s.fd.Some? || |s.files| <= 10)
            else 1 <= |s.files| <= 10)
      && (if r.files.Keys == s.files.Keys then
            var m := Latest(s.files.Keys); r.files == s.files[m := s.files[m] + data]
          else t in r.files && r.files[t] == data)
  {
    StoreCases(s, used, data, t);
    assert s.files == map[] <==> |s.files| == 0;
    if !Creates(s, data) {
      WriteToLatest(s.files, data);
    }
  }

  /** Every file of this run except the latest has too little room for a record of `m` bytes. */
  ghost predicate NearlyFull(before: Files, files: Files, m: nat) {
    forall k :: k in files && k !in before && k != Latest(files.Keys) ==> |files[k]| + m > 1024 * 1024
  }

  ghost predicate NoLarger(events: seq<Event>, m: nat) {
    forall e :: e in events && e.Record? ==> |e.data| <= m
  }

  ghost predicate NeverDisabled(events: seq<Event>) {
    forall e :: e in events && e.Enable? ==> e.on
  }

  lemma StoreNearlyFull(before: Files, s: Log, past: Bytes, used: bool, data: Bytes, t: nat, m: nat)
    requires Inv(before, s, past, used) && |data| <= m && |data| <= 1024 * 1024
    requires Creates(s, data) ==> Fresh(s.files, t)
    requires NearlyFull(before, s.files, m) && (used ==> s.fd.Some? || |s.files| <= 10)
    ensures NearlyFull(before, Store(s, data, t).files, m)
  {
    hide Contents;
    StoreCases(s, used, data, t);
    var r := Store(s, data, t);
    if Creates(s, data) {
      var kept: Files := Kept(s, data);
      assert forall k :: k in kept ==> k in s.files && kept[k] == s.files[k];
      LatestIs(r.files.Keys, t);
    } else {
      WriteToLatest(s.files, data);
    }
  }

  lemma StoreOpens(s: Log, used: bool, data: Bytes, t: nat)
    requires InOrder(s, used)
    ensures Store(s, data, t).fd.Some?
  {
    StoreCases(s, used, data, t);
  }

  /** With records of at most `m` bytes, every file of the run except the latest is left with less than `m` bytes of
      room: so long as there are at most ten files, or logging is not disabled in between, no file is given up early. */
  lemma {:induction false} OthersNearlyFull(before: Files, events: seq<Event>, m: nat)
    requires 0 !in before && Steady(Boot(before), events) && NoLarger(events, m)
    requires |before| <= 10 || NeverDisabled(events)
    ensures
      var r := Run(Boot(before), events);
      && NearlyFull(before, r.files, m)
      && (Used(Boot(before), events) ==> r.fd.Some? || |r.files| <= 10)
    decreases |events|
  {
    hide Store;
    hide Contents;
    hide NearlyFull;
    hide Fresh;
    hide Creates;
    hide WithinLimit;
    var start := Boot(before);
    if events == [] {
      NothingCreated(before, m);
    } else {
      var last := |events| - 1;
      var e, s := events[last], Run(start, events[..last]);
      assert e in events && forall f :: f in events[..last] ==> f in events;
      OthersNearlyFull(before, events[..last], m);
      RingKeepsSuffix(before, events[..last]);
      RingKeepsSuffix(before, events);
      var used, past := Used(start, events[..last]), Contents(before) + Recorded(start, events[..last]);
      if IsStored(s, e) {
        StoreNearlyFull(before, s, past, used, e.data, e.time, m);
        StoreOpens(s, used, e.data, e.time);
      }
    }
  }

  lemma NothingCreated(before: Files, m: nat)
    ensures NearlyFull(before, before, m)
  {
  }

  /** What so many files hold, each with more than `b` bytes. */
  lemma {:induction false} ManyHoldMuch(files: Files, b: nat)
    requires forall k :: k in files ==> |files[k]| >= b
    ensures |Contents(files)| >= |files| * b
    decreases |files|
  {
    if files == map[] {
    } else {
      var m := Latest(files.Keys);
      FewerFiles(files, m);
      ManyHoldMuch(files - {m}, b);
      assert |files| * b == |files - {m}| * b + b;
    }
  }

  /** From an empty directory, and with records of at most `m` bytes, the log keeps everything, or more than nine files
      less nine times `m`. */
  lemma {:induction false} KeepsNineFiles(events: seq<Event>, m: nat)
    requires Steady(Boot(map[]), events) && NoLarger(events, m) && m <= 1024 * 1024
    ensures
      var r := Run(Boot(map[]), events);
      || Contents(r.files) == Recorded(Boot(map[]), events)
      || |Contents(r.files)| > 9 * (1024 * 1024 - m)
  {
    var none: Files := map[];
    var r := Run(Boot(none), events);
    LostOnlyWhenTen(events);
    if Contents(r.files) != Recorded(Boot(none), events) {
      OthersNearlyFull(none, events, m);
      var l := Latest(r.files.Keys);
      FewerFiles(r.files, l);
      ManyHoldMuch(r.files - {l}, 1024 * 1024 - m + 1);
    }
  }

  lemma {:induction false} LostOnlyWhenTen(events: seq<Event>)
    requires Steady(Boot(map[]), events)
    ensures
      var r := Run(Boot(map[]), events);
      Contents(r.files) == Recorded(Boot(map[]), events) || |r.files| == 10
    decreases |events|
  {
    hide Store;
    hide Contents;
    hide Fresh;
    hide WithinLimit;
    var none: Files := map[];
    var start := Boot(none);
    if events == [] {
      assert Contents(none) == [] by { EmptyContents(); }
    } else {
      var last := |events| - 1;
      var e, s := events[last], Run(start, events[..last]);
      LostOnlyWhenTen(events[..last]);
      RingKeepsSuffix(none, events[..last]);
      RingKeepsSuffix(none, events);
      if IsStored(s, e) {
        RecordAppends(s, Used(start, events[..last]), e.data, e.time);
      } else {
        assert Recorded(start, events) == Recorded(start, events[..last]);
      }
    }
  }

  lemma EmptyContents()
    ensures Contents(map[]) == []
  {
  }
}
