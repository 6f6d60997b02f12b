/** The identity tracker of identity.rs: non-atomic snapshots become currently bound live members,
    an exact or typed partial total, and bounded escape evidence. Ordered maps keyed by pid are
    sequences in strictly increasing pid order. */
module Identity {
  import opened Common

  datatype ProcessIdentity = ProcessIdentity(pid: i32, startAbstime: u64)

  datatype Observation = Observation(
    identity: ProcessIdentity, parentPid: i32, processGroupId: i32, footprint: Option<u64>, exited: bool)

  datatype FailureKind =
    | Disappeared | PermissionDenied | StaleIdentity | MalformedData
    | Unsupported | EnumerationFailed | Unavailable

  datatype ObservationFailure = ObservationFailure(pid: Option<i32>, kind: FailureKind)

  datatype Snapshot = Snapshot(observations: seq<Observation>, failures: seq<ObservationFailure>)

  datatype AggregateFootprint =
    | Complete(totalBytes: u64)
    | Incomplete(knownBytes: u64, missing: set<ProcessIdentity>)
    | Overflow

  datatype TrackedProcess = TrackedProcess(identity: ProcessIdentity, parentPid: i32, escaped: bool)

  datatype Frame = Frame(
    ownedMembers: seq<Observation>, escapeObserved: bool, aggregate: AggregateFootprint,
    failures: seq<ObservationFailure>, rootExitObserved: bool)

  datatype Tracker = Tracker(
    root: ProcessIdentity, ownedGroup: i32, tracked: seq<TrackedProcess>,
    escaped: set<ProcessIdentity>, escapedCount: u64, rootExitObserved: bool)

  const MAX_ESCAPED_EVIDENCE: nat := 64

  // ---- Observations by pid ----

  /** Insert at the pid's place unless that pid is already present. */
  function InsertFirst(os: seq<Observation>, o: Observation): seq<Observation> {
    if os == [] || o.identity.pid < os[0].identity.pid then [o] + os
    else if o.identity.pid == os[0].identity.pid then os
    else [os[0]] + InsertFirst(os[1..], o)
  }

  /** The first observation of every pid, in pid order. */
  function ByPid(raw: seq<Observation>): seq<Observation> {
    if raw == [] then []
    else
      var n := |raw| - 1;
      InsertFirst(ByPid(raw[..n]), raw[n])
  }

  function Lookup(os: seq<Observation>, pid: i32): Option<Observation> {
    if os == [] then None
    else if os[0].identity.pid == pid then Some(os[0])
    else Lookup(os[1..], pid)
  }

  function Find(tracked: seq<TrackedProcess>, identity: ProcessIdentity): Option<TrackedProcess> {
    if tracked == [] then None
    else if tracked[0].identity == identity then Some(tracked[0])
    else Find(tracked[1..], identity)
  }

  lemma {:induction false} LookupFinds(os: seq<Observation>, pid: i32)
    ensures Lookup(os, pid).Some? ==> Lookup(os, pid).value in os && Lookup(os, pid).value.identity.pid == pid
    ensures Lookup(os, pid).None? ==> forall o :: o in os ==> o.identity.pid != pid
  {
    if os != [] {
      LookupFinds(os[1..], pid);
      assert forall o :: o in os ==> o == os[0] || o in os[1..];
    }
  }

  lemma {:induction false} FindFinds(tracked: seq<TrackedProcess>, identity: ProcessIdentity)
    ensures var f := Find(tracked, identity);
            f.Some? ==> f.value in tracked && f.value.identity == identity
  {
    if tracked != [] {
      FindFinds(tracked[1..], identity);
    }
  }

  // ---- Descent from the root ----

  /** The observed parent of an observed pid, when it is positive. */
  function Parent(os: seq<Observation>, pid: i32): Option<i32> {
    match Lookup(os, pid)
    case Some(o) => if o.parentPid > 0 then Some(o.parentPid) else None
    case None => None
  }

  /** The pid `n` steps up a parent chain of positive pids, if the chain gets that far. */
  function Ancestor(os: seq<Observation>, start: i32, n: nat): Option<i32> {
    if n == 0 then (if start > 0 then Some(start) else None)
    else
      match Ancestor(os, start, n - 1)
      case Some(pid) => Parent(os, pid)
      case None => None
  }

  ghost predicate DescendsFrom(os: seq<Observation>, o: Observation, rootPid: i32) {
    exists n: nat :: Ancestor(os, o.parentPid, n) == Some(rootPid)
  }

  /** A set closed under observed parents that misses the root cuts the chain off from it. */
  lemma {:induction false} ClosedSetAvoids(os: seq<Observation>, start: i32, closed: set<i32>, rootPid: i32, n: nat)
    requires start <= 0 || start in closed
    requires forall pid :: pid in closed ==> Parent(os, pid).None? || Parent(os, pid).value in closed
    requires rootPid !in closed
    ensures Ancestor(os, start, n).None? || Ancestor(os, start, n).value in closed
    ensures Ancestor(os, start, n) != Some(rootPid)
  {
    if n > 0 {
      ClosedSetAvoids(os, start, closed, rootPid, n - 1);
    }
  }

  /** Walk the parent chain; terminates on cycles because no pid is visited twice. */
  method DescendsFromRoot(o: Observation, os: seq<Observation>, rootPid: i32) returns (r: bool)
    ensures r <==> DescendsFrom(os, o, rootPid)
  {
    var parent := o.parentPid;
    var visited: set<i32> := {};
    ghost var observed := set x | x in os :: x.identity.pid;
    ghost var n: nat := 0;
    while parent > 0 && parent !in visited
      invariant visited <= observed && rootPid !in visited
      invariant parent > 0 ==> Ancestor(os, o.parentPid, n) == Some(parent)
      invariant o.parentPid <= 0 || o.parentPid in visited || o.parentPid == parent
      invariant forall pid :: pid in visited ==>
                  Parent(os, pid).None? || Parent(os, pid).value in visited || Parent(os, pid).value == parent
      decreases observed - visited
    {
      visited := visited + {parent};
      if parent == rootPid {
        return true;
      }
      var next := Lookup(os, parent);
      LookupFinds(os, parent);
      if next.None? {
        forall k: nat {
          ClosedSetAvoids(os, o.parentPid, visited, rootPid, k);
        }
        return false;
      }
      parent, n := next.value.parentPid, n + 1;
    }
    forall k: nat {
      ClosedSetAvoids(os, o.parentPid, visited, rootPid, k);
    }
    return false;
  }

  // ---- Which pids to inspect ----

  datatype Listing = Listed(pids: seq<i32>) | ListingFailed

  ghost predicate ClosedUnderChildren(pids: set<i32>, children: i32 -> Listing) {
    forall p, c :: p in pids && children(p).Listed? && c in children(p).pids ==> c in pids
  }

  /** The pid belongs to every set that holds the seeds and is closed under children. */
  ghost predicate Required(pid: i32, seeds: set<i32>, children: i32 -> Listing) {
    forall pids: set<i32> :: seeds <= pids && ClosedUnderChildren(pids, children) ==> pid in pids
  }

  predicate IsPid(p: int) {
    -0x8000_0000 <= p < 0x8000_0000
  }

  method Enqueue(pids: set<i32>) returns (queue: seq<i32>)
    ensures forall p :: p in queue <==> p in pids
  {
    var rest := pids;
    queue := [];
    while rest != {}
      invariant rest <= pids && forall p :: p in queue <==> p in pids - rest
      decreases rest
    {
      var p :| p in rest;
      rest := rest - {p};
      queue := queue + [p];
    }
  }

  /** Add the pids that are not known yet, and queue each of them. */
  method AddNew(pids: seq<i32>, known: set<i32>, queue: seq<i32>) returns (known': set<i32>, queue': seq<i32>)
    ensures known' == known + set p | p in pids
    ensures forall p :: p in queue' <==> p in queue || (p in pids && p !in known)
  {
    known', queue' := known, queue;
    for i := 0 to |pids|
      invariant known' == known + set p | p in pids[..i]
      invariant forall p :: p in queue' <==> p in queue || (p in pids[..i] && p !in known)
    {
      assert pids[..i + 1] == pids[..i] + [pids[i]];
      if pids[i] !in known' {
        known' := known' + {pids[i]};
        queue' := queue' + [pids[i]];
      }
    }
    assert pids[..|pids|] == pids;
  }

  /** The worklist over child links returns exactly the least set that holds the root, the positive
      tracked pids and the group members and is closed under children; it fails only when the group
      or some pid of that set could not be listed. */
  method ListRelevantPids(rootPid: i32, group: Listing, trackedPids: seq<i32>, children: i32 -> Listing)
    returns (r: Option<set<i32>>)
    ensures group.ListingFailed? ==> r.None?
    ensures group.Listed? ==>
              var seeds := (set p | p in trackedPids && p > 0) + {rootPid} + (set p | p in group.pids);
              && (r.Some? ==> seeds <= r.value && ClosedUnderChildren(r.value, children)
                              && (forall p :: p in r.value ==> Required(p, seeds, children) && children(p).Listed?))
              && (r.None? ==> exists p :: Required(p, seeds, children) && children(p).ListingFailed?)
  {
    if group.ListingFailed? {
      return None;
    }
    var relevant := (set p | p in trackedPids && p > 0) + {rootPid} + (set p | p in group.pids);
    ghost var seeds := relevant;
    var visited: set<i32> := {};
    var pending := Enqueue(relevant);
    ghost var all := set p: i32 | -0x8000_0000 <= p < 0x8000_0000 && IsPid(p);
    while pending != []
      invariant seeds <= relevant && visited <= relevant
      invariant forall p :: p in pending ==> p in relevant
      invariant forall p :: p in relevant ==> p in visited || p in pending
      invariant forall p :: p in visited ==>
                  children(p).Listed? && forall c :: c in children(p).pids ==> c in relevant
      invariant forall p :: p in relevant ==> Required(p, seeds, children)
      decreases all - visited, |pending|
    {
      var parent := pending[0];
      assert pending == [parent] + pending[1..];
      pending := pending[1..];
      if parent in visited {
        continue;
      }
      ghost var unvisited := all - visited;
      visited := visited + {parent};
      assert IsPid(parent) && parent in unvisited;
      var listed := children(parent);
      if listed.ListingFailed? {
        return None;
      }
      assert forall c :: c in listed.pids ==> Required(c, seeds, children) by {
        forall c | c in listed.pids {
          ChildIsRequired(parent, c, seeds, children);
        }
      }
      relevant, pending := AddNew(listed.pids, relevant, pending);
    }
    return Some(relevant);
  }

  lemma ChildIsRequired(parent: i32, child: i32, seeds: set<i32>, children: i32 -> Listing)
    requires Required(parent, seeds, children) && children(parent).Listed? && child in children(parent).pids
    ensures Required(child, seeds, children)
  {
  }
}
