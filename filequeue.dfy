/**
 * The window's queue of media files waiting to be transcribed.
 */
module FileQueue {

  /** The queue after offering `paths` in order: a path is appended when it is not
      empty and not queued yet, counting the ones appended before it. */
  function Added(queue: seq<string>, paths: seq<string>): seq<string>
    decreases |paths|
  {
    if paths == [] then queue
    else
      var p := paths[0];
      Added(if p != "" && p !in queue then queue + [p] else queue, paths[1..])
  }

  /** The queue's invariant: no empty path and no path twice. */
  predicate Distinct(queue: seq<string>)
  {
    (forall k :: 0 <= k < |queue| ==> queue[k] != "") &&
    (forall j, k :: 0 <= j < k < |queue| ==> queue[j] != queue[k])
  }

  /** The part of the window that holds the queue. */
  class MainWindow {
    var queueFiles: seq<string>

    predicate Valid()
      reads this
    {
      Distinct(queueFiles)
    }

    constructor ()
      ensures queueFiles == [] && Valid()
    {
      queueFiles := [];
    }

    /** `add_files(paths)`: with no paths given, the ones picked in the file dialog
        (`picked`) are offered instead. */
    method AddFiles(paths: seq<string>, picked: seq<string>)
      requires Valid()
      modifies this
      ensures queueFiles == Added(old(queueFiles), if paths == [] then picked else paths)
      ensures Valid()
    {
      var offered := if paths == [] then picked else paths;
      var i := 0;
      while i < |offered|
        invariant 0 <= i <= |offered|
        invariant Added(queueFiles, offered[i..]) == Added(old(queueFiles), offered)
        invariant Distinct(queueFiles)
      {
        var p := offered[i];
        assert offered[i..][1..] == offered[i + 1..];
        if p != "" && p !in queueFiles {
          queueFiles := queueFiles + [p];
        }
        i := i + 1;
      }
    }

    /** `remove_from_queue(idx)`: drops the entry at `idx`; any other index is ignored. */
    method RemoveFromQueue(idx: int)
      requires Valid()
      modifies this
      ensures queueFiles == if 0 <= idx < |old(queueFiles)| then old(queueFiles)[..idx] + old(queueFiles)[idx + 1..] else old(queueFiles)
      ensures Valid()
    {
      if 0 <= idx < |queueFiles| {
        RemovedDistinct(queueFiles, idx);
        queueFiles := queueFiles[..idx] + queueFiles[idx + 1..];
      }
    }

    /** `clear_queue()` */
    method ClearQueue()
      modifies this
      ensures queueFiles == [] && Valid()
    {
      queueFiles := [];
    }
  }

  // ---------------------------------------------------------------------------
  // Properties
  // ---------------------------------------------------------------------------

  /** Adding keeps the queue free of empty and repeated paths. */
  lemma {:induction false} AddedDistinct(queue: seq<string>, paths: seq<string>)
    requires Distinct(queue)
    ensures Distinct(Added(queue, paths))
    decreases |paths|
  {
    if paths != [] {
      var p := paths[0];
      var q := if p != "" && p !in queue then queue + [p] else queue;
      assert Distinct(q);
      AddedDistinct(q, paths[1..]);
    }
  }

  /** The old queue stays in front, unchanged and in order. */
  lemma {:induction false} AddedExtends(queue: seq<string>, paths: seq<string>)
    ensures |queue| <= |Added(queue, paths)| && Added(queue, paths)[..|queue|] == queue
    decreases |paths|
  {
    if paths != [] {
      var p := paths[0];
      var q := if p != "" && p !in queue then queue + [p] else queue;
      AddedExtends(q, paths[1..]);
      assert q[..|queue|] == queue;
      assert Added(queue, paths)[..|queue|] == Added(q, paths[1..])[..|q|][..|queue|];
    }
  }

  /** A path ends up queued exactly when it was queued before or offered and not empty. */
  lemma {:induction false} AddedMembers(queue: seq<string>, paths: seq<string>, x: string)
    ensures x in Added(queue, paths) <==> x in queue || (x in paths && x != "")
    decreases |paths|
  {
    if paths != [] {
      var p := paths[0];
      var q := if p != "" && p !in queue then queue + [p] else queue;
      AddedMembers(q, paths[1..], x);
      assert paths == [p] + paths[1..];
    }
  }

  /** Offering the same paths twice adds nothing the second time. */
  lemma AddedIdempotent(queue: seq<string>, paths: seq<string>)
    ensures Added(Added(queue, paths), paths) == Added(queue, paths)
  {
    var q := Added(queue, paths);
    forall x | x in paths && x != ""
      ensures x in q
    {
      AddedMembers(queue, paths, x);
    }
    AddedNothingNew(q, paths);
  }

  lemma {:induction false} AddedNothingNew(queue: seq<string>, paths: seq<string>)
    requires forall x :: x in paths && x != "" ==> x in queue
    ensures Added(queue, paths) == queue
    decreases |paths|
  {
    if paths != [] {
      assert forall x :: x in paths[1..] ==> x in paths;
      AddedNothingNew(queue, paths[1..]);
    }
  }

  /** Removing an entry keeps the invariant and forgets exactly that path. */
  lemma RemovedDistinct(queue: seq<string>, idx: nat)
    requires Distinct(queue) && idx < |queue|
    ensures Distinct(queue[..idx] + queue[idx + 1..])
    ensures forall x :: x in queue[..idx] + queue[idx + 1..] <==> x in queue && x != queue[idx]
  {
    var r := queue[..idx] + queue[idx + 1..];
    assert forall k :: 0 <= k < |r| ==> r[k] == queue[if k < idx then k else k + 1];
    forall x | x in queue && x != queue[idx]
      ensures x in r
    {
      var k :| 0 <= k < |queue| && queue[k] == x;
      assert r[if k < idx then k else k - 1] == x;
    }
  }
}
