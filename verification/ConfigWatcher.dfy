/**
 * The configuration watcher: it scans a directory into a map from path to hash, reports the paths
 * that differ from the last scan it kept, and keeps the new scan once it has reported.
 */
module ConfigWatcher {
  import opened Options

  type Path = string
  type Hash = string

  /** A scan: a dictionary, with the order in which iterating over it yields its keys. */
  datatype Scan = Scan(order: seq<Path>, hashes: map<Path, Hash>)

  ghost predicate IsScan(s: Scan) {
    && NoRepeats(s.order)
    && forall p :: p in s.order <==> p in s.hashes
  }

  ghost predicate NoRepeats(s: seq<Path>) {
    forall i, j :: 0 <= i < j < |s| ==> s[i] != s[j]
  }

  function Lookup(m: map<Path, Hash>, p: Path): Option<Hash> {
    if p in m then Some(m[p]) else None
  }

  /** The two maps say different things about a path: added, removed or modified. */
  predicate Differs(a: map<Path, Hash>, b: map<Path, Hash>, p: Path) {
    Lookup(a, p) != Lookup(b, p)
  }

  /** A subscriber that re-reads exactly the paths it is told about. */
  function Refresh(mirror: map<Path, Hash>, current: map<Path, Hash>, changes: seq<Path>): map<Path, Hash> {
    map p | p in mirror.Keys + current.Keys && Lookup(if p in changes then current else mirror, p).Some?
      :: Lookup(if p in changes then current else mirror, p).value
  }

  /** Re-reading the differing paths, and only those, makes the mirror equal to the scan. */
  lemma {:induction false} RefreshExact(mirror: map<Path, Hash>, current: map<Path, Hash>, changes: seq<Path>)
    ensures Refresh(mirror, current, changes) == current <==> forall p :: Differs(mirror, current, p) ==> p in changes
  {
    var r := Refresh(mirror, current, changes);
    forall p ensures Lookup(r, p) == Lookup(if p in changes then current else mirror, p) {}
    if r == current {
      forall p | Differs(mirror, current, p) ensures p in changes {
        assert Lookup(r, p) == Lookup(current, p);
      }
    } else if forall p :: Differs(mirror, current, p) ==> p in changes {
      forall p ensures Lookup(r, p) == Lookup(current, p) {
        assert Differs(mirror, current, p) ==> p in changes;
      }
      SameLookups(r, current);
    }
  }

  lemma {:induction false} SameLookups(a: map<Path, Hash>, b: map<Path, Hash>)
    requires forall p :: Lookup(a, p) == Lookup(b, p)
    ensures a == b
  {
    forall p ensures p in a <==> p in b {
      assert Lookup(a, p) == Lookup(b, p);
    }
    forall p | p in a ensures a[p] == b[p] {
      assert Lookup(a, p) == Lookup(b, p);
    }
  }

  class Watcher {
    var files: Scan
    var running: bool

    constructor ()
      ensures files == Scan([], map[]) && !running
    {
      files := Scan([], map[]);
      running := false;
    }

    /** `start` keeps the first scan without reporting it. */
    method Start(scan: Scan)
      modifies this
      ensures files == scan && running
    {
      files := scan;
      running := true;
    }

    method Stop()
      modifies this`running
      ensures !running
    {
      running := false;
    }

    /** The first loop: scanned paths that are new or whose hash is another one. */
    method AddedOrModified(scanned: Scan) returns (changes: seq<Path>)
      requires IsScan(scanned)
      ensures NoRepeats(changes)
      ensures forall p :: p in changes <==> p in scanned.hashes && Differs(files.hashes, scanned.hashes, p)
    {
      changes := [];
      for i := 0 to |scanned.order|
        invariant NoRepeats(changes)
        invariant forall p :: p in changes <==> p in scanned.order[..i] && Differs(files.hashes, scanned.hashes, p)
      {
        var path := scanned.order[i];
        assert path !in scanned.order[..i];
        if Lookup(files.hashes, path) != Some(scanned.hashes[path]) {
          changes := changes + [path];
        }
      }
      assert scanned.order[..|scanned.order|] == scanned.order;
    }

    /** Exactly the paths on which the kept and the new scan differ, each once. */
    method DetectChanges(scanned: Scan) returns (changes: seq<Path>)
      requires IsScan(files) && IsScan(scanned)
      ensures NoRepeats(changes)
      ensures forall p :: p in changes <==> Differs(files.hashes, scanned.hashes, p)
    {
      changes := AddedOrModified(scanned);
      ghost var found := changes;
      for i := 0 to |files.order|
        invariant NoRepeats(changes)
        invariant forall p :: p in changes <==> p in found || (p in files.order[..i] && p !in scanned.hashes)
      {
        var path := files.order[i];
        assert path !in files.order[..i];
        if path !in scanned.hashes {
          changes := changes + [path];
        }
      }
      assert files.order[..|files.order|] == files.order;
    }

    /**
     * One round of the polling loop. `scan` is None when scanning raised, which leaves everything as it was.
     * The changes are what the callbacks are notified with; a callback's exception is swallowed.
     */
    method Poll(scan: Option<Scan>) returns (changes: seq<Path>)
      requires running && IsScan(files) && (scan.Some? ==> IsScan(scan.value))
      modifies this`files
      ensures IsScan(files) && NoRepeats(changes)
      ensures scan.None? ==> changes == [] && files == old(files)
      ensures scan.Some? ==> files.hashes == scan.value.hashes
      ensures forall p :: p in changes <==> Differs(old(files.hashes), files.hashes, p)
    {
      changes := [];
      if scan.Some? {
        changes := DetectChanges(scan.value);
        if changes != [] {
          files := scan.value;
        } else {
          assert forall p :: p !in changes;
          assert forall p :: Differs(files.hashes, scan.value.hashes, p) ==> p in changes;
          forall p ensures Lookup(files.hashes, p) == Lookup(scan.value.hashes, p) {
            assert !Differs(files.hashes, scan.value.hashes, p);
          }
          SameLookups(files.hashes, scan.value.hashes);
        }
      }
    }
  }

  /** The hashes after a run of scans, None standing for a scan that raised. */
  function LastScan(first: Scan, scans: seq<Option<Scan>>): Scan {
    if |scans| == 0 then first
    else if scans[|scans| - 1].Some? then scans[|scans| - 1].value
    else LastScan(first, scans[..|scans| - 1])
  }

  /** Over any run, a mirror read once at the start and refreshed only on notified paths equals the latest scan. */
  method MirrorRun(first: Scan, scans: seq<Option<Scan>>) returns (mirrors: seq<map<Path, Hash>>)
    requires IsScan(first) && forall i :: 0 <= i < |scans| && scans[i].Some? ==> IsScan(scans[i].value)
    ensures |mirrors| == |scans|
    ensures forall i :: 0 <= i < |scans| ==> mirrors[i] == LastScan(first, scans[..i + 1]).hashes
  {
    var watcher := new Watcher();
    watcher.Start(first);
    var mirror := first.hashes;
    mirrors := [];
    for i := 0 to |scans|
      invariant fresh(watcher) && watcher.running && IsScan(watcher.files)
      invariant mirror == watcher.files.hashes == LastScan(first, scans[..i]).hashes
      invariant |mirrors| == i
      invariant forall j :: 0 <= j < i ==> mirrors[j] == LastScan(first, scans[..j + 1]).hashes
    {
      assert scans[..i + 1][..i] == scans[..i];
      var changes := watcher.Poll(scans[i]);
      RefreshExact(mirror, watcher.files.hashes, changes);
      mirror := Refresh(mirror, watcher.files.hashes, changes);
      mirrors := mirrors + [mirror];
    }
  }
}
