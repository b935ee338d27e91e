/** The history log's own code over a directory that lists its entries in no particular order. */
module HistoryFiles {
  import opened Words
  import opened HistoryRing

  /** A directory entry: one of the log's files, or something else. */
  datatype Entry = DataFile(stamp: nat, size: nat) | Other

  /** The data files among the entries are exactly these, each listed once. */
  ghost predicate Lists(listing: seq<Entry>, files: Files) {
    && (forall i :: 0 <= i < |listing| && listing[i].DataFile? ==>
          listing[i].stamp in files && listing[i].size == |files[listing[i].stamp]|)
    && (forall i, j :: 0 <= i < j < |listing| && listing[i].DataFile? && listing[j].DataFile? ==>
          listing[i].stamp != listing[j].stamp)
    && (forall k :: k in files ==> exists i :: 0 <= i < |listing| && listing[i] == DataFile(k, |files[k]|))
  }

  ghost function Stamps(listing: seq<Entry>): set<nat> {
    set i | 0 <= i < |listing| && listing[i].DataFile? :: listing[i].stamp
  }

  lemma AllListed(listing: seq<Entry>, files: Files)
    requires Lists(listing, files)
    ensures Stamps(listing) == files.Keys
  {
    forall k | k in files
      ensures k in Stamps(listing)
    {
      var i :| 0 <= i < |listing| && listing[i] == DataFile(k, |files[k]|);
    }
  }

  lemma NextEntry(listing: seq<Entry>, i: nat)
    requires i < |listing|
    ensures
      Stamps(listing[..i + 1]) == Stamps(listing[..i]) + (if listing[i].DataFile? then {listing[i].stamp} else {})
  {
    var a, b := listing[..i], listing[..i + 1];
    assert b[i] == listing[i];
    forall j | 0 <= j < i && a[j].DataFile?
      ensures a[j].stamp in Stamps(b)
    {
      assert b[j] == a[j];
    }
    forall k | k in Stamps(b) && !(listing[i].DataFile? && k == listing[i].stamp)
      ensures k in Stamps(a)
    {
      var j :| 0 <= j < |b| && b[j].DataFile? && b[j].stamp == k;
      assert a[j] == b[j];
    }
  }

  lemma NotYetListed(listing: seq<Entry>, files: Files, i: nat)
    requires Lists(listing, files) && i < |listing| && listing[i].DataFile?
    ensures listing[i].stamp !in Stamps(listing[..i])
  {
  }

  class History {
    var files: Files
    var otherEntries: nat
    var fd: Option<nat>
    var fdOffset: int
    var enabled: bool
    /** How often the writing thread holds `h_lock` between its calls. */
    var held: nat

    ghost predicate Valid()
      reads this
    {
      fdOffset >= 0 && 0 !in files
    }

    ghost function State(): Log
      reads this
      requires Valid()
    {
      Log(files, fd, fdOffset, enabled, held)
    }

    constructor (files: Files, otherEntries: nat)
      requires 0 !in files
      ensures Valid() && State() == Boot(files)
    {
      this.files, this.otherEntries := files, otherEntries;
      fd, fdOffset, enabled, held := None, 0, false, 0;
    }

    /** What reading the directory brings, in some order. */
    method ReadDir() returns (listing: seq<Entry>)
      ensures Lists(listing, files)
    {
      listing := seq(otherEntries, _ => Other);
      var rest := files.Keys;
      while rest != {}
        invariant rest <= files.Keys
        invariant forall k :: k in files && k !in rest ==>
                    exists i :: 0 <= i < |listing| && listing[i] == DataFile(k, |files[k]|)
        invariant forall i :: 0 <= i < |listing| && listing[i].DataFile? ==>
                    && listing[i].stamp in files && listing[i].stamp !in rest
                    && listing[i].size == |files[listing[i].stamp]|
        invariant forall i, j :: 0 <= i < j < |listing| && listing[i].DataFile? && listing[j].DataFile? ==>
                    listing[i].stamp != listing[j].stamp
        decreases |rest|
      {
        var k :| k in rest;
        ghost var before := listing;
        listing := listing + [DataFile(k, |files[k]|)];
        rest := rest - {k};
        forall m | m in files && m !in rest
          ensures exists i :: 0 <= i < |listing| && listing[i] == DataFile(m, |files[m]|)
        {
          if m == k {
            assert listing[|before|] == DataFile(m, |files[m]|);
          } else {
            var i :| 0 <= i < |before| && before[i] == DataFile(m, |files[m]|);
            assert listing[i] == before[i];
          }
        }
      }
    }

    /** The latest or the oldest data file, with its size and the number of them all; size -1 and no
        number when there is none. */
    method GetFile(latest: bool) returns (size: int, stamp: nat, fileNum: nat)
      requires 0 !in files
      ensures files == map[] ==> size == -1
      ensures files != map[] ==>
                && stamp == (if latest then Latest(files.Keys) else Oldest(files.Keys))
                && size == |files[stamp]| && fileNum == |files|
    {
      var listing := ReadDir();
      var val, num := 0, 0;
      size := 0;
      for i := 0 to |listing|
        invariant num == |Stamps(listing[..i])| && (val == 0 <==> Stamps(listing[..i]) == {})
        invariant val > 0 ==> val in files && size == |files[val]|
        invariant val > 0 ==>
                    if latest then IsLatest(Stamps(listing[..i]), val) else IsOldest(Stamps(listing[..i]), val)
      {
        NextEntry(listing, i);
        match listing[i]
        case Other =>
        case DataFile(tmp, length) =>
          NotYetListed(listing, files, i);
          num := num + 1;
          if val == 0 {
            val, size := tmp, length;
          } else if latest {
            if val < tmp {
              val, size := tmp, length;
            }
          } else {
            if val > tmp {
              val, size := tmp, length;
            }
          }
      }
      assert listing[..|listing|] == listing;
      AllListed(listing, files);
      if val == 0 {
        return -1, 0, 0;
      }
      stamp, fileNum := val, num;
      assert |files.Keys| == |files|;
    }

    method OpenLatestFile(create: bool, time: nat)
      requires Valid() && fd.None?
      requires create || files == map[] || |files| > MAX_FILE_NUM ==> Fresh(files, time)
      modifies this`files, this`fd, this`fdOffset
      ensures Valid() && State() == OpenLatest(old(State()), create, time)
    {
      var offset, stamp, fileN := GetFile(true);
      fdOffset := offset;
      if !(fileN > MAX_FILE_NUM) && !create && fdOffset >= 0 {
        fd := Some(stamp);
        return;
      } else if fileN >= MAX_FILE_NUM {
        var size, oldest, _ := GetFile(false);
        if size >= 0 {
          files := files - {oldest};
        }
      }
      files := files[time := []];
      fd := Some(time);
      fdOffset := 0;
    }

    /** A record, from the thread that writes; while logging is disabled it returns with the mutex locked. */
    method WriteHistoryData(data: Bytes, time: nat) returns (ret: int)
      requires Valid() && (fd.Some? ==> fd.value in files)
      requires enabled && Creates(State(), data) ==> Fresh(files, time)
      modifies this
      ensures Valid() && State() == Write(old(State()), data, time)
      ensures ret == if old(enabled) then 0 else -1
    {
      held := held + 1;
      if !enabled {
        return -1;
      }
      var create := false;
      if fdOffset + |data| > MAX_FILE_SIZE {
        fd := None;
        create := true;
      }
      if fd.None? {
        OpenLatestFile(create, time);
      }
      files := files[fd.value := files[fd.value] + data];
      fdOffset := fdOffset + |data|;
      held := held - 1;
      ret := 0;
    }

    /** From the writing thread or another one; false when the mutex never lets the call through. */
    method HistoryEnableWrite(enable: bool, own: bool) returns (done: bool)
      requires Valid()
      modifies this`fd, this`enabled
      ensures Valid() && State() == EnableWrite(old(State()), enable, own)
      ensures done <==> held == 0 || own
    {
      if held > 0 && !own {
        return false;
      }
      if !enable {
        fd := None;
      }
      enabled := enable;
      done := true;
    }
  }
}
