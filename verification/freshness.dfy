/**
 ID freshness over any sequence of `AddTask` and `DeleteTask` calls made on one
 store within a process. A mutation's effect on memory stands whatever the file
 rewrite reports, so a run applies every command and ignores the errors.
 */
module Freshness {
  import opened TaskStore

  datatype Command =
    | Add(description: string, now: Timestamp, write: WriteResult)
    | Delete(id: Id, write: WriteResult)

  function Apply(s: Store, c: Command): Outcome {
    match c
    case Add(description, now, write) => AddTask(s, description, now, write)
    case Delete(id, write) => DeleteTask(s, id, write)
  }

  /** The store after the commands, in order. */
  function Run(s: Store, cmds: seq<Command>): Store
    decreases |cmds|
  {
    if cmds == [] then s else Run(Apply(s, cmds[0]).store, cmds[1..])
  }

  /** The IDs the `Add` commands of a run hand out, in order. */
  function Issued(s: Store, cmds: seq<Command>): seq<Id>
    decreases |cmds|
  {
    if cmds == [] then []
    else
      var next := Apply(s, cmds[0]).store;
      (if cmds[0].Add? then [next.count] else []) + Issued(next, cmds[1..])
  }

  /** Each command raises the counter by at most one and never lowers it, short of the wrap. */
  lemma ApplyStep(s: Store, c: Command)
    requires s.count < MaxInt
    ensures s.count <= Apply(s, c).store.count <= s.count + 1
    ensures CountCoversKeys(s) ==> CountCoversKeys(Apply(s, c).store)
  {
    if CountCoversKeys(s) {
      match c
      case Add(description, now, write) => AddTaskFresh(s, description, now, write);
      case Delete(id, write) => DeleteTaskKeepsInvariant(s, id, write);
    }
  }

  /** Freshness survives any run that cannot push the counter past the top of the range. */
  lemma {:induction false} RunKeepsInvariant(s: Store, cmds: seq<Command>)
    requires CountCoversKeys(s)
    requires s.count + |cmds| <= MaxInt
    ensures CountCoversKeys(Run(s, cmds))
    ensures s.count <= Run(s, cmds).count <= s.count + |cmds|
    decreases |cmds|
  {
    if cmds != [] {
      ApplyStep(s, cmds[0]);
      RunKeepsInvariant(Apply(s, cmds[0]).store, cmds[1..]);
    }
  }

  /** Issued IDs are all above the starting counter and strictly increasing. */
  lemma {:induction false} IssuedIncreasing(s: Store, cmds: seq<Command>)
    requires s.count + |cmds| <= MaxInt
    ensures forall i :: 0 <= i < |Issued(s, cmds)| ==> s.count < Issued(s, cmds)[i] <= s.count + |cmds|
    ensures forall i, j :: 0 <= i < j < |Issued(s, cmds)| ==> Issued(s, cmds)[i] < Issued(s, cmds)[j]
    decreases |cmds|
  {
    if cmds != [] {
      var next := Apply(s, cmds[0]).store;
      ApplyStep(s, cmds[0]);
      IssuedIncreasing(next, cmds[1..]);
      if cmds[0].Add? {
        assert next.count == s.count + 1;
      }
    }
  }

  /** Every `Add` of such a run stores its task under a key not yet in the map. */
  lemma AddInRunIsFresh(s: Store, cmds: seq<Command>, k: nat)
    requires CountCoversKeys(s)
    requires s.count + |cmds| <= MaxInt
    requires k < |cmds| && cmds[k].Add?
    ensures Increment(Run(s, cmds[..k]).count) !in Run(s, cmds[..k]).tasks
    ensures |Apply(Run(s, cmds[..k]), cmds[k]).store.tasks| == |Run(s, cmds[..k]).tasks| + 1
  {
    var before := Run(s, cmds[..k]);
    RunKeepsInvariant(s, cmds[..k]);
    AddTaskFresh(before, cmds[k].description, cmds[k].now, cmds[k].write);
  }

  /** An ID removed by `DeleteTask` is never handed out again by later adds. */
  lemma {:induction false} DeletedIdNeverReissued(s: Store, id: Id, write: WriteResult, cmds: seq<Command>)
    requires CountCoversKeys(s)
    requires id in s.tasks
    requires s.count + |cmds| <= MaxInt
    ensures id !in Issued(DeleteTask(s, id, write).store, cmds)
  {
    var after := DeleteTask(s, id, write).store;
    IssuedIncreasing(after, cmds);
  }
}
