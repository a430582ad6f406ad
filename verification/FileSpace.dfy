/** One session's temporary files: uploads, the close that races with them, and the watcher
    that frees a close stuck behind an upload whose client has gone quiet. */
module FileSpace {
  import opened Sorting
  import opened Sums
  import opened Quota

  datatype Error = Invalid | Closed | Exists | Interrupted | Limit | Missing | Disk

  datatype Result<+T> = Ok(value: T) | Err(error: Error)

  /** What reading the request body yields. */
  datatype Body = Complete(data: seq<bv8>) | Broken

  /** The file operations of an upload, each of which the disk may refuse. */
  datatype Operation = Stat | CreateTemp | List | Sync | HardLink

  /** The directory has room for one more file of n bytes. */
  ghost predicate Accepts(files: map<string, Node>, n: nat) {
    1 + Total(files, Weigh, Entries) <= MAX_ENTRIES && Total(files, Weigh, Bytes) + n <= SESSION_FILE_QUOTA
  }

  /** At most 4096 regular files of at most 32 MiB, 128 MiB together. */
  ghost predicate WithinLimits(files: map<string, Node>) {
    && (forall n | n in files :: files[n].File? && |files[n].data| <= 32 * 1024 * 1024)
    && |files| <= 4096 && Total(files, Weigh, Bytes) <= 128 * 1024 * 1024
  }

  /** Each regular file is one entry. */
  lemma {:induction false} FilesAreEntries(files: map<string, Node>)
    requires forall n | n in files :: files[n].File?
    ensures Total(files, Weigh, Entries) == |files|
    decreases |files|
  {
    if files != map[] {
      var n :| n in files;
      TotalRemove(files, Weigh, n, Entries);
      assert (files - {n}).Keys == files.Keys - {n};
      FilesAreEntries(files - {n});
    }
  }

  lemma AddKeepsLimits(files: map<string, Node>, name: string, data: seq<bv8>)
    requires WithinLimits(files) && name !in files && |data| <= MAX_FILE_BYTES && Accepts(files, |data|)
    ensures WithinLimits(files[name := File(data)])
  {
    FilesAreEntries(files);
    FilesAreEntries(files[name := File(data)]);
    TotalInsert(files, Weigh, name, File(data), Entries);
    TotalInsert(files, Weigh, name, File(data), Bytes);
  }

  /** Anything may lie in the directory, but no file of almost 2^63 bytes. */
  predicate AllModest(files: map<string, Node>) {
    forall n | n in files :: Modest(files[n])
  }

  /** The walk over the session directory decides Accepts, whatever lies there and in whatever
      order it lists names. */
  lemma WalkDecides(files: map<string, Node>, names: seq<string>, n: nat)
    requires AllModest(files) && n <= MAX_FILE_BYTES
    requires Distinct(names) && forall x :: x in names <==> x in files
    ensures Verdict(Visits(Dir(Listed(files, names))), n, 0, 0) <==> Accepts(files, n)
  {
    hide Total;
    var children := Listed(files, names);
    VisitsWeigh(Dir(children));
    ListedWeighs(files, names, Entries);
    ListedWeighs(files, names, Bytes);
    assert Modest(Dir(children));
    VisitsPlausible(Dir(children));
    WalkAcceptsIffWithinLimits(Visits(Dir(children)), n);
  }

  lemma NoneRefused(refused: set<Operation>)
    requires forall o :: o == Stat || o == CreateTemp || o == List || o == Sync || o == HardLink ==> o !in refused
    ensures refused == {}
  {
    forall o ensures o !in refused {
      assert o.Stat? || o.CreateTemp? || o.List? || o.Sync? || o.HardLink?;
    }
  }

  // ----- The object, one call at a time -----

  class FileSpace {
    var done: bool
    var closed: bool
    var files: map<string, Node>

    ghost predicate Valid()
      reads this
    {
      done == closed && (closed ==> files == map[]) && AllModest(files)
    }

    constructor ()
      ensures Valid() && !closed && files == map[] && WithinLimits(files)
    {
      done, closed, files := false, false, map[];
    }

    /** names is the order in which the walk lists the session directory. */
    method Upload(name: string, valid: bool, body: Body, names: seq<string>, refused: set<Operation>)
      returns (r: Result<nat>)
      requires Valid()
      requires Distinct(names) && forall x :: x in names <==> x in files
      modifies this
      ensures Valid() && closed == old(closed) && (WithinLimits(old(files)) ==> WithinLimits(files))
      ensures r.Ok? <==> valid && !closed && refused == {} && name !in old(files) && body.Complete?
                         && |body.data| <= MAX_FILE_BYTES && Accepts(old(files), |body.data|)
      ensures r.Ok? ==> r.value == |body.data| && files == old(files)[name := File(body.data)]
      ensures r.Err? ==> files == old(files)
      ensures valid && closed ==> r == Err(Closed)
      ensures valid && !closed && refused == {} && name in old(files) ==> r == Err(Exists)
      ensures valid && !closed && refused == {} && name !in old(files) && r.Err? ==>
                r == Err(if body.Broken? then Interrupted else Limit)
      ensures valid && !closed && refused != {} ==>
                match r.error
                case Disk => true
                case Exists => Stat !in refused && name in old(files)
                case Interrupted => Stat !in refused && CreateTemp !in refused && body.Broken?
                case Limit =>
                  && Stat !in refused && CreateTemp !in refused && body.Complete?
                  && (|body.data| > MAX_FILE_BYTES || !Accepts(old(files), |body.data|))
                case _ => false
    {
      if !valid {
        return Err(Invalid);
      }
      if closed {
        return Err(Closed);
      }
      if Stat in refused {
        return Err(Disk);
      }
      if name in files {
        return Err(Exists);
      }
      if CreateTemp in refused {
        return Err(Disk);
      }
      if body.Broken? {
        return Err(Interrupted);
      }
      if |body.data| > MAX_FILE_BYTES {
        return Err(Limit);
      }
      if done {
        return Err(Closed);
      }
      if List in refused {
        return Err(Disk);
      }
      WalkDecides(files, names, |body.data|);
      var room := Walk(Visits(Dir(Listed(files, names))), |body.data|);
      if !room {
        return Err(Limit);
      }
      if Sync in refused || HardLink in refused {
        return Err(Disk);
      }
      NoneRefused(refused);
      if WithinLimits(files) { AddKeepsLimits(files, name, body.data); }
      files := files[name := File(body.data)];
      r := Ok(|body.data|);
    }

    method Download(name: string, valid: bool) returns (r: Result<seq<bv8>>)
      requires Valid()
      ensures r.Ok? <==> valid && name in files && files[name].File? && |files[name].data| <= MAX_FILE_BYTES
      ensures r.Ok? ==> files[name] == File(r.value)
    {
      if !valid {
        return Err(Invalid);
      }
      if closed {
        return Err(Closed);
      }
      if name !in files {
        return Err(Missing);
      }
      if !files[name].File? {
        return Err(Invalid);
      }
      if |files[name].data| > MAX_FILE_BYTES {
        return Err(Limit);
      }
      r := Ok(files[name].data);
    }

    method Close()
      requires Valid()
      modifies this
      ensures Valid() && closed && files == map[]
    {
      done := true;
      closed := true;
      files := map[];
    }
  }

  /** What was uploaded is what is downloaded, and no second upload replaces it. */
  method UploadThenDownload(space: FileSpace, name: string, data: seq<bv8>, other: Body, names: seq<string>,
                            again: seq<string>, refused: set<Operation>)
    returns (first: Result<nat>, second: Result<nat>, back: Result<seq<bv8>>)
    requires space.Valid() && !space.closed
    requires Distinct(names) && forall x :: x in names <==> x in space.files
    requires Distinct(again)
    requires forall x :: x in again <==> x in space.files || x == name
    modifies space
    ensures first.Ok? ==> second.Err? && back == Ok(data) && (refused == {} ==> second == Err(Exists))
  {
    first := space.Upload(name, true, Complete(data), names, {});
    second, back := Err(Invalid), Err(Invalid);
    if first.Ok? {
      second := space.Upload(name, true, other, again, refused);
      back := space.Download(name, true);
    }
  }
}
