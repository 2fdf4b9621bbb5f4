/** The privileged loopback helper (infra/iscsi/holo-local-loopback-helper.py): it
    builds and takes down one library's target, portal group, nexus and LUNs in
    configfs and records ownership in a marker file. Each filesystem action is atomic
    and may fail; the process may die between any two of them. */
module LoopbackHelper {
  import opened Bytes

  /** What the marker file records: the nexus name and, by LUN, the backend. */
  datatype Record = Record(nexus: string, devices: map<nat, string>)

  /** `Torn` is a marker that was created but not, or not fully, written. */
  datatype Marker = NoMarker | Torn | Complete(record: Record)

  /** The library's files. A LUN is a directory with or without its backend link. */
  datatype Files = Files(marker: Marker, target: bool, tpg: bool, nexus: string, luns: map<nat, Option<string>>)

  const NOTHING := Files(NoMarker, false, false, "", map[])

  datatype Verdict = Foreign | Missing | Owned
  datatype Reason = MappingConflict | OperationFailed | CleanupFailed

  // ------------------------------------------------------------------ invariant

  ghost predicate Matches(f: Files, r: Record)
  {
    && (f.nexus != "" ==> f.nexus == r.nexus)
    && (forall l :: l in f.luns ==> l in r.devices && (f.luns[l].Some? ==> f.luns[l].value == r.devices[l]))
  }

  /** A target has a complete marker, and everything under it is what the marker
      says. */
  ghost predicate Inv(f: Files)
  {
    && (f.target ==> f.marker.Complete?)
    && (f.tpg ==> f.target)
    && (f.nexus != "" || f.luns != map[] ==> f.tpg)
    && (f.marker.Complete? ==> Matches(f, f.marker.record))
  }

  // -------------------------------------------------------------------- actions

  /** One filesystem action on the frame of a library that is marked as `r`. */
  ghost predicate FrameAct(f: Files, g: Files, r: Record)
  {
    || (!f.target && (g == f.(marker := NoMarker) || g == f.(target := true)))
    || (f.target && !f.tpg && (g == f.(target := false) || g == f.(tpg := true)))
    || (f.tpg && f.nexus == "" && f.luns == map[] && g == f.(tpg := false))
    || (f.tpg && (g == f.(nexus := "") || (f.nexus == "" && g == f.(nexus := r.nexus))))
  }

  /** One on LUN `l`: its directory is made before its link and goes after it. */
  ghost predicate LunAct(f: Files, g: Files, r: Record, l: nat)
  {
    && f.tpg && l in r.devices
    && (|| (l !in f.luns && g == f.(luns := f.luns[l := None]))
        || (l in f.luns && f.luns[l].Some? && g == f.(luns := f.luns[l := None]))
        || (l in f.luns && f.luns[l].None? &&
            (g == f.(luns := f.luns[l := Some(r.devices[l])]) || g == f.(luns := f.luns - {l}))))
  }

  /** Any one action of an operation on mapping `r`. */
  ghost predicate Acts(f: Files, g: Files, r: Record)
  {
    || (f.marker.NoMarker? && !f.target && g == f.(marker := Torn))
    || (f.marker.Torn? && g == f.(marker := Complete(r)))
    || (f.marker == Complete(r) && (FrameAct(f, g, r) || exists l :: LunAct(f, g, r, l)))
  }

  ghost predicate Step(f: Files, g: Files, asked: set<Record>) { exists r :: r in asked && Acts(f, g, r) }

  /** `path` leads from its first state to its last by single actions. */
  ghost predicate Chain(path: seq<Files>, asked: set<Record>)
  {
    path != [] && forall i :: 0 < i < |path| ==> Step(path[i - 1], path[i], asked)
  }

  ghost predicate Allowed(f: Files, asked: set<Record>)
  {
    Inv(f) && (f.marker.Complete? ==> f.marker.record in asked)
  }

  lemma FrameActKeeps(f: Files, g: Files, r: Record)
    requires Inv(f) && f.marker == Complete(r) && FrameAct(f, g, r)
    ensures Inv(g) && (g.marker.Complete? ==> g.marker.record == r)
  {
  }

  lemma LunActKeeps(f: Files, g: Files, r: Record, l: nat)
    requires Inv(f) && f.marker == Complete(r) && LunAct(f, g, r, l)
    ensures Inv(g) && g.marker == Complete(r)
  {
  }

  lemma ActKeeps(f: Files, g: Files, r: Record, asked: set<Record>)
    requires Allowed(f, asked) && r in asked && Acts(f, g, r)
    ensures Allowed(g, asked)
  {
    if f.marker == Complete(r) && FrameAct(f, g, r) {
      FrameActKeeps(f, g, r);
    } else if f.marker == Complete(r) && exists l :: LunAct(f, g, r, l) {
      var l :| LunAct(f, g, r, l);
      LunActKeeps(f, g, r, l);
    }
  }

  /** Every state on such a path from no files at all, which is every state a crash
      can leave, gives each target a complete marker and a tree the marker describes. */
  lemma {:induction false} ChainKeeps(path: seq<Files>, asked: set<Record>, i: nat)
    requires Chain(path, asked) && path[0] == NOTHING && i < |path|
    ensures Allowed(path[i], asked)
  {
    if i > 0 {
      ChainKeeps(path, asked, i - 1);
      var r :| r in asked && Acts(path[i - 1], path[i], r);
      ActKeeps(path[i - 1], path[i], r, asked);
    }
  }

  // ----------------------------------------------------------------- inspection

  /** The check before a remove. */
  predicate InspectsForeign(f: Files, r: Record)
  {
    || (f.nexus != "" && f.nexus != r.nexus)
    || (exists l :: l in f.luns && (l !in r.devices || (f.luns[l].Some? && f.luns[l].value != r.devices[l])))
  }

  function InspectForRemove(f: Files, r: Record): Verdict
  {
    if f.marker.NoMarker? then if f.target then Foreign else Missing
    else if f.marker != Complete(r) then Foreign
    else if !f.target || !f.tpg then Owned
    else if InspectsForeign(f, r) then Foreign
    else Owned
  }

  /** The check before an ensure, which does not accept a LUN without its link. */
  function Inspect(f: Files, r: Record): Verdict
  {
    if f.marker.NoMarker? then if f.target then Foreign else Missing
    else if f.marker != Complete(r) then Foreign
    else if !f.target || !f.tpg then Owned
    else if InspectsForeign(f, r) || (exists l :: l in f.luns && f.luns[l].None?) then Foreign
    else Owned
  }

  /** In a state the helper itself can leave behind, a remove takes the library for
      foreign exactly when the marker is torn or records another mapping. */
  lemma RemoveRefusesOnlyByMarker(f: Files, r: Record)
    requires Inv(f)
    ensures InspectForRemove(f, r) == Foreign <==> f.marker.Torn? || (f.marker.Complete? && f.marker.record != r)
  {
  }

  /** An ensure also refuses when a LUN lost its link, which only a remove repairs. */
  lemma EnsureRefusesBareLuns(f: Files, r: Record)
    requires Inv(f)
    ensures Inspect(f, r) == Foreign <==>
      f.marker.Torn? || (f.marker.Complete? && f.marker.record != r) || (exists l :: l in f.luns && f.luns[l].None?)
  {
  }

  /** The files with a library fully set up. */
  function Built(r: Record): Files
  {
    Files(Complete(r), true, true, r.nexus, map l | l in r.devices :: Some(r.devices[l]))
  }

  ghost predicate SameTree(f: Files, g: Files)
  {
    f.target == g.target && f.tpg == g.tpg && f.nexus == g.nexus && f.luns == g.luns
  }

  /** The next action creates the marker and the one after fails to fill it. */
  predicate Tears(f: Files, luck: seq<bool>)
  {
    f.marker.NoMarker? && !f.target && |luck| >= 2 && luck[0] && !luck[1]
  }

  // ------------------------------------------------------------------- contracts

  predicate Lucky(luck: seq<bool>) { forall i :: 0 <= i < |luck| ==> luck[i] }

  /** Every device of the mapping that is not in `failed` has its linked LUN. */
  ghost predicate Linked(r: Record, f: Files, failed: set<nat>)
  {
    forall l :: l in r.devices && l !in failed ==> l in f.luns && f.luns[l] == Some(r.devices[l])
  }

  /** What an ensure of `r` makes of `f`. A failure that reports no failed cleanup
      leaves the tree, or has put the nexus into a portal group that was there. */
  ghost predicate EnsureDone(r: Record, f: Files, res: Result<set<nat>, Reason>, g: Files, lucky: bool)
  {
    && (Inspect(f, r) == Foreign ==> res == Err(MappingConflict) && g == f)
    && (res.Ok? ==> g.marker == Complete(r) && g.target && g.tpg && g.nexus == r.nexus && Linked(r, g, res.value))
    && (res == Err(OperationFailed) ==> SameTree(g, f) || (f.tpg && SameTree(g, f.(nexus := r.nexus))))
    && (lucky && Inspect(f, r) != Foreign ==> res == Ok({}) && g == Built(r))
  }

  /** What a remove of the `pending` devices of `r` makes of `f`. */
  ghost predicate RemoveDone(r: Record, pending: set<nat>, f: Files, res: Result<bool, Reason>, g: Files, lucky: bool)
  {
    && (InspectForRemove(f, r) == Foreign ==> res == Err(MappingConflict) && g == f)
    && (lucky && InspectForRemove(f, r) != Foreign ==> res == Ok(true))
    && (res == Ok(true) ==> g == if pending == r.devices.Keys then NOTHING else f.(luns := f.luns - pending))
  }

  // --------------------------------------------------------------------- helper

  class Helper {
    var files: Files
    /** Whether the coming filesystem actions succeed; all do once it runs out. */
    var luck: seq<bool>
    /** The files at the start and after every action: what a crash can leave. */
    var trace: seq<Files>
    /** The mappings that are ever asked for. */
    ghost const asked: set<Record>

    ghost predicate Valid()
      reads this
    {
      Chain(trace, asked) && trace[|trace| - 1] == files && Allowed(files, asked)
    }

    /** A helper process that finds `files`. */
    constructor (files: Files, luck: seq<bool>, ghost asked: set<Record>)
      requires Allowed(files, asked)
      ensures Valid() && this.files == files && this.luck == luck && trace == [files] && this.asked == asked
    {
      this.files, this.luck, trace, this.asked := files, luck, [files], asked;
    }

    /** Whether the next action succeeds. */
    method Try() returns (ok: bool)
      modifies this`luck
      ensures ok == (old(luck) == [] || old(luck)[0]) && luck == (if old(luck) == [] then [] else old(luck)[1..])
      ensures Lucky(old(luck)) ==> ok && Lucky(luck)
    {
      ok := luck == [] || luck[0];
      luck := if luck == [] then [] else luck[1..];
    }

    /** One filesystem action. */
    method Act(next: Files, ghost r: Record) returns (ok: bool)
      requires Valid() && r in asked && Acts(files, next, r)
      modifies this
      ensures Valid() && old(trace) <= trace
      ensures files == (if ok then next else old(files))
      ensures trace == (if ok then old(trace) + [next] else old(trace))
      ensures ok == (old(luck) == [] || old(luck)[0]) && luck == (if old(luck) == [] then [] else old(luck)[1..])
      ensures Lucky(old(luck)) ==> ok && Lucky(luck)
    {
      ok := Try();
      if ok {
        ActKeeps(files, next, r, asked);
        assert Step(trace[|trace| - 1], next, asked);
        files, trace := next, trace + [next];
      }
    }

    /** One action on a LUN. */
    method LunStep(next: map<nat, Option<string>>, ghost r: Record, ghost l: nat) returns (ok: bool)
      requires Valid() && files.marker == Complete(r) && LunAct(files, files.(luns := next), r, l)
      modifies this
      ensures Valid() && old(trace) <= trace
      ensures files == (if ok then old(files).(luns := next) else old(files))
      ensures Lucky(old(luck)) ==> ok && Lucky(luck)
    {
      ok := Act(files.(luns := next), r);
    }

    // ---------------------------------------------------------------- ensuring

    /** Creates the marker exclusively and then fills it. */
    method WriteOwner(r: Record) returns (res: Result<bool, Reason>)
      requires Valid() && !files.target && r in asked
      modifies this
      ensures Valid() && old(trace) <= trace
      ensures SameTree(files, old(files))
      ensures res.Ok? ==> files.marker == Complete(r) && res.value == old(files).marker.NoMarker?
      ensures Lucky(old(luck)) ==> Lucky(luck) && (res.Ok? <==> old(files).marker.NoMarker? || old(files).marker == Complete(r))
      ensures Tears(old(files), old(luck)) ==> res == Err(OperationFailed) && trace == old(trace) + [old(files).(marker := Torn)]
    {
      if !files.marker.NoMarker? {
        return if files.marker == Complete(r) then Ok(false) else Err(MappingConflict);
      }
      var made := Act(files.(marker := Torn), r);
      if !made { return Err(OperationFailed); }
      var filled := Act(files.(marker := Complete(r)), r);
      return if filled then Ok(true) else Err(OperationFailed);
    }

    method ClearOwner(r: Record) returns (ok: bool)
      requires Valid() && !files.target && (files.marker.NoMarker? || files.marker == Complete(r))
      modifies this
      ensures Valid() && old(trace) <= trace && SameTree(files, old(files))
      ensures if ok then files.marker == NoMarker else files == old(files)
      ensures Lucky(old(luck)) ==> ok && Lucky(luck)
    {
      if files.marker.NoMarker? { return true; }
      ok := Act(files.(marker := NoMarker), r);
    }

    method EnsureTarget(r: Record) returns (res: Result<bool, Reason>)
      requires Valid() && Inspect(files, r) != Foreign && r in asked
      modifies this
      ensures Valid() && old(trace) <= trace
      ensures res.Ok? ==> files == old(files).(marker := Complete(r), target := true) && res.value == !old(files).target
      ensures res.Err? ==> SameTree(files, old(files))
      ensures Lucky(old(luck)) ==> res.Ok? && Lucky(luck)
      ensures Tears(old(files), old(luck)) ==> res == Err(OperationFailed) && trace == old(trace) + [old(files).(marker := Torn)]
    {
      if files.target { return Ok(false); }
      var owner := WriteOwner(r);
      if owner.Err? { return owner; }
      var made := Act(files.(target := true), r);
      if made { return Ok(true); }
      if owner.value { var _ := ClearOwner(r); }
      return Err(OperationFailed);
    }

    method EnsureTpg(r: Record) returns (res: Result<bool, Reason>)
      requires Valid() && files.target && files.marker == Complete(r)
      modifies this
      ensures Valid() && old(trace) <= trace
      ensures res.Ok? ==> files == old(files).(tpg := true) && res.value == !old(files).tpg
      ensures res.Err? ==> files == old(files)
      ensures Lucky(old(luck)) ==> res.Ok? && Lucky(luck)
    {
      if files.tpg { return Ok(false); }
      var made := Act(files.(tpg := true), r);
      return if made then Ok(true) else Err(OperationFailed);
    }

    /** Writes the nexus and reads it back. */
    method EnsureNexus(r: Record) returns (res: Result<bool, Reason>)
      requires Valid() && files.tpg && files.marker == Complete(r)
      modifies this
      ensures Valid() && old(trace) <= trace
      ensures res.Ok? ==> files == old(files).(nexus := r.nexus)
      ensures res.Err? ==> files == old(files) || files == old(files).(nexus := r.nexus)
      ensures Lucky(old(luck)) ==> res.Ok? && Lucky(luck)
    {
      if files.nexus == r.nexus { return Ok(false); }
      var made := Act(files.(nexus := r.nexus), r);
      if !made { return Err(OperationFailed); }
      var same := Try();
      return if same then Ok(true) else Err(MappingConflict);
    }

    /** A LUN is a directory first and gets its link second. */
    method EnsureLun(r: Record, l: nat) returns (ok: bool)
      requires Valid() && files.tpg && files.marker == Complete(r) && l in r.devices
      modifies this
      ensures Valid() && old(trace) <= trace
      ensures files == old(files).(luns := files.luns)
      ensures ok ==> files.luns == old(files).luns[l := Some(r.devices[l])]
      ensures !ok ==> files.luns == old(files).luns || files.luns == old(files).luns[l := None]
      ensures Lucky(old(luck)) && (l in old(files).luns ==> old(files).luns[l].Some?) ==> ok && Lucky(luck)
    {
      if l in files.luns { return files.luns[l].Some?; }
      ok := LunStep(files.luns[l := None], r, l);
      if !ok { return; }
      ok := LunStep(files.luns[l := Some(r.devices[l])], r, l);
    }

    // ---------------------------------------------------------------- removing

    /** The link goes first and the directory second. */
    method RemoveLun(r: Record, l: nat) returns (ok: bool)
      requires Valid() && (files.tpg ==> files.marker == Complete(r))
      modifies this
      ensures Valid() && old(trace) <= trace
      ensures files == old(files).(luns := files.luns)
      ensures ok ==> files.luns == old(files).luns - {l}
      ensures files.luns - {l} == old(files).luns - {l}
      ensures Lucky(old(luck)) ==> ok && Lucky(luck)
    {
      if l !in files.luns { return true; }
      if files.luns[l].Some? {
        ok := LunStep(files.luns[l := None], r, l);
        if !ok { return; }
      }
      ok := LunStep(files.luns - {l}, r, l);
    }

    method RemoveNexus(r: Record) returns (ok: bool)
      requires Valid() && (files.tpg ==> files.marker == Complete(r))
      modifies this
      ensures Valid() && old(trace) <= trace
      ensures files == if ok then old(files).(nexus := "") else old(files)
      ensures Lucky(old(luck)) ==> ok && Lucky(luck)
    {
      if files.nexus == "" { return true; }
      ok := Act(files.(nexus := ""), r);
    }

    method RemoveTpg(r: Record) returns (ok: bool)
      requires Valid() && (files.tpg ==> files.marker == Complete(r))
      modifies this
      ensures Valid() && old(trace) <= trace
      ensures files == if ok then old(files).(tpg := false) else old(files)
      ensures ok && old(files).tpg ==> files.nexus == "" && files.luns == map[]
      ensures Lucky(old(luck)) ==> Lucky(luck) && (ok <==> !old(files).tpg || (old(files).nexus == "" && old(files).luns == map[]))
    {
      if !files.tpg { return true; }
      if files.nexus != "" || files.luns != map[] { return false; }
      ok := Act(files.(tpg := false), r);
    }

    method RemoveTarget(r: Record) returns (ok: bool)
      requires Valid() && (files.marker.NoMarker? || files.marker == Complete(r))
      modifies this
      ensures Valid() && old(trace) <= trace
      ensures ok ==> files == old(files).(marker := NoMarker, target := false)
      ensures files == old(files) || files == old(files).(target := false) || files == old(files).(marker := NoMarker, target := false)
      ensures Lucky(old(luck)) && !old(files).tpg ==> ok && Lucky(luck)
    {
      if files.target {
        if files.tpg { return false; }
        ok := Act(files.(target := false), r);
        if !ok { return; }
      }
      ok := ClearOwner(r);
    }

    // -------------------------------------------------------------- operations

    /** The frame of the library: target, portal group, nexus; whatever was created
        is taken down again in reverse when a step fails. */
    method EnsureFrame(r: Record) returns (res: Result<(), Reason>)
      requires Valid() && Inspect(files, r) != Foreign && r in asked
      modifies this
      ensures Valid() && old(trace) <= trace
      ensures res.Ok? ==> files == old(files).(marker := Complete(r), target := true, tpg := true, nexus := r.nexus)
      ensures res == Err(OperationFailed) ==>
        SameTree(files, old(files)) || (old(files).tpg && SameTree(files, old(files).(nexus := r.nexus)))
      ensures Lucky(old(luck)) ==> res.Ok? && Lucky(luck)
      ensures Tears(old(files), old(luck)) ==> res == Err(OperationFailed) && trace == old(trace) + [old(files).(marker := Torn)]
    {
      var target := EnsureTarget(r);
      if target.Err? { return Err(OperationFailed); }
      var tpg := EnsureTpg(r);
      if tpg.Err? {
        res := UndoFrame(r, target.value, false);
        return;
      }
      var nexus := EnsureNexus(r);
      if nexus.Err? {
        res := UndoFrame(r, target.value, tpg.value);
        return;
      }
      return Ok(());
    }

    /** Undoes a created portal group and then a created target. */
    method UndoFrame(r: Record, target: bool, tpg: bool) returns (res: Result<(), Reason>)
      requires Valid() && files.marker == Complete(r) && files.target && (target ==> files.tpg == tpg) && (tpg ==> files.tpg)
      modifies this
      ensures Valid() && old(trace) <= trace
      ensures res == Err(OperationFailed) || res == Err(CleanupFailed)
      ensures res == Err(OperationFailed) ==>
        SameTree(files, old(files).(target := !target, tpg := old(files).tpg && !tpg)) && (tpg ==> files.nexus == "")
    {
      var clean := true;
      if tpg { clean := RemoveTpg(r); }
      if target {
        var gone := RemoveTarget(r);
        clean := clean && gone;
      }
      return Err(if clean then OperationFailed else CleanupFailed);
    }

    method Ensure(r: Record) returns (res: Result<set<nat>, Reason>)
      requires Valid() && r in asked
      modifies this
      ensures Valid() && old(trace) <= trace
      ensures Inspect(old(files), r) == Foreign ==> trace == old(trace)
      ensures EnsureDone(r, old(files), res, files, Lucky(old(luck))) && (Lucky(old(luck)) ==> Lucky(luck))
      ensures Tears(old(files), old(luck)) ==> res == Err(OperationFailed) && trace == old(trace) + [old(files).(marker := Torn)]
    {
      if Inspect(files, r) == Foreign { return Err(MappingConflict); }
      var frame := EnsureFrame(r);
      if frame.Err? { return Err(frame.error); }
      var failed := EnsureLuns(r);
      return Ok(failed);
    }

    method EnsureLuns(r: Record) returns (failed: set<nat>)
      requires Valid() && files.tpg && files.marker == Complete(r)
      modifies this
      ensures Valid() && old(trace) <= trace
      ensures files == old(files).(luns := files.luns)
      ensures Linked(r, files, failed)
      ensures Lucky(old(luck)) && (forall l :: l in old(files).luns ==> old(files).luns[l].Some?) ==> failed == {} && Lucky(luck)
    {
      failed := {};
      var todo := r.devices.Keys;
      while todo != {}
        invariant Valid() && old(trace) <= trace && todo <= r.devices.Keys
        invariant files == old(files).(luns := files.luns)
        invariant forall l :: l in r.devices && l !in failed && l !in todo ==> l in files.luns && files.luns[l] == Some(r.devices[l])
        invariant Lucky(old(luck)) && (forall l :: l in old(files).luns ==> old(files).luns[l].Some?) ==>
          failed == {} && Lucky(luck) && forall l :: l in files.luns ==> files.luns[l].Some?
        decreases todo
      {
        var l :| l in todo;
        var ok := EnsureLun(r, l);
        if !ok { failed := failed + {l}; }
        todo := todo - {l};
      }
    }

    method RemoveLuns(r: Record, pending: set<nat>) returns (ok: bool)
      requires Valid() && (files.tpg ==> files.marker == Complete(r)) && pending <= r.devices.Keys
      modifies this
      ensures Valid() && old(trace) <= trace
      ensures files == old(files).(luns := files.luns)
      ensures files.luns - pending == old(files).luns - pending
      ensures ok ==> files.luns == old(files).luns - pending
      ensures Lucky(old(luck)) ==> ok && Lucky(luck)
    {
      ok := true;
      var todo := pending;
      while todo != {}
        invariant Valid() && old(trace) <= trace && todo <= pending
        invariant files == old(files).(luns := files.luns)
        invariant files.luns - pending == old(files).luns - pending
        invariant ok ==> files.luns == old(files).luns - (pending - todo)
        invariant Lucky(old(luck)) ==> ok && Lucky(luck)
        decreases todo
      {
        var l :| l in todo;
        ghost var before := files.luns;
        var gone := RemoveLun(r, l);
        assert files.luns - pending == (files.luns - {l}) - pending && before - pending == (before - {l}) - pending;
        ok := ok && gone;
        todo := todo - {l};
      }
    }

    /** Takes the pending LUNs down and, when no other device is left and none failed,
        the frame. */
    method Remove(r: Record, pending: set<nat>) returns (res: Result<bool, Reason>)
      requires Valid() && pending <= r.devices.Keys
      modifies this
      ensures Valid() && old(trace) <= trace
      ensures InspectForRemove(old(files), r) == Foreign ==> trace == old(trace)
      ensures RemoveDone(r, pending, old(files), res, files, Lucky(old(luck))) && (Lucky(old(luck)) ==> Lucky(luck))
    {
      if InspectForRemove(files, r) == Foreign { return Err(MappingConflict); }
      var clean := RemoveLuns(r, pending);
      if !clean { return Ok(false); }
      if pending != r.devices.Keys { return Ok(true); }
      var nexus := RemoveNexus(r);
      if !nexus { return Err(OperationFailed); }
      var tpg := RemoveTpg(r);
      if !tpg { return Err(OperationFailed); }
      var target := RemoveTarget(r);
      if !target { return Err(OperationFailed); }
      return Ok(true);
    }
  }

  // ----------------------------------------------------------------------- runs

  datatype Op = EnsureOp(record: Record) | RemoveOp(record: Record, pending: set<nat>)
  datatype Answer = EnsureAnswer(failed: Result<set<nat>, Reason>) | RemoveAnswer(clean: Result<bool, Reason>)

  ghost predicate Done(op: Op, f: Files, a: Answer, g: Files, lucky: bool)
  {
    match op
    case EnsureOp(r) => a.EnsureAnswer? && EnsureDone(r, f, a.failed, g, lucky)
    case RemoveOp(r, pending) => a.RemoveAnswer? && RemoveDone(r, pending, f, a.clean, g, lucky)
  }

  method Perform(h: Helper, op: Op) returns (a: Answer)
    requires h.Valid() && op.record in h.asked && (op.RemoveOp? ==> op.pending <= op.record.devices.Keys)
    modifies h
    ensures h.Valid() && old(h.trace) <= h.trace
    ensures Done(op, old(h.files), a, h.files, Lucky(old(h.luck))) && (Lucky(old(h.luck)) ==> Lucky(h.luck))
  {
    match op
    case EnsureOp(r) =>
      var res := h.Ensure(r);
      a := EnsureAnswer(res);
    case RemoveOp(r, pending) =>
      var res := h.Remove(r, pending);
      a := RemoveAnswer(res);
  }

  /** Operation `k` of a run took the files from entry `marks[k]` of the trace to entry
      `marks[k + 1]`. */
  ghost predicate DoneAt(ops: seq<Op>, answers: seq<Answer>, marks: seq<nat>, trace: seq<Files>, lucky: bool, k: nat)
    requires k < |ops| && k < |answers| && k + 1 < |marks|
  {
    && marks[k] <= marks[k + 1] < |trace|
    && Done(ops[k], trace[marks[k]], answers[k], trace[marks[k + 1]], lucky)
  }

  ghost predicate AllDone(ops: seq<Op>, answers: seq<Answer>, marks: seq<nat>, trace: seq<Files>, lucky: bool)
  {
    && |answers| <= |ops| && |marks| == |answers| + 1
    && marks[0] == 0 && marks[|answers|] == |trace| - 1
    && forall k :: 0 <= k < |answers| ==> DoneAt(ops, answers, marks, trace, lucky, k)
  }

  lemma DoneOn(ops: seq<Op>, answers: seq<Answer>, marks: seq<nat>, before: seq<Files>, lucky: bool, a: Answer, after: seq<Files>)
    requires AllDone(ops, answers, marks, before, lucky) && |answers| < |ops| && before != [] && before <= after
    requires Done(ops[|answers|], before[|before| - 1], a, after[|after| - 1], lucky)
    ensures AllDone(ops, answers + [a], marks + [|after| - 1], after, lucky)
  {
    var longer, further := answers + [a], marks + [|after| - 1];
    forall k: nat | k < |longer| ensures DoneAt(ops, longer, further, after, lucky, k) {
      if k < |answers| { assert DoneAt(ops, answers, marks, before, lucky, k); }
    }
  }

  /** Any sequence of operations, each action failing or not. The trace holds every
      state the files go through, so every state a crash can leave: each target has a
      complete marker of a mapping that was asked for and a tree the marker describes. */
  method Run(ops: seq<Op>, luck: seq<bool>) returns (h: Helper, answers: seq<Answer>, marks: seq<nat>)
    requires forall op :: op in ops && op.RemoveOp? ==> op.pending <= op.record.devices.Keys
    ensures Chain(h.trace, set op | op in ops :: op.record) && h.trace[0] == NOTHING && h.trace[|h.trace| - 1] == h.files
    ensures |answers| == |ops| && AllDone(ops, answers, marks, h.trace, Lucky(luck))
    ensures forall f :: f in h.trace ==> Allowed(f, set op | op in ops :: op.record)
  {
    ghost var asked := set op | op in ops :: op.record;
    h := new Helper(NOTHING, luck, asked);
    answers, marks := [], [0];
    for n := 0 to |ops|
      invariant fresh(h) && h.Valid() && h.asked == asked && h.trace[0] == NOTHING
      invariant |answers| == n && AllDone(ops, answers, marks, h.trace, Lucky(luck)) && (Lucky(luck) ==> Lucky(h.luck))
    {
      assert ops[n] in ops;
      ghost var before := h.trace;
      var a := Perform(h, ops[n]);
      DoneOn(ops, answers, marks, before, Lucky(luck), a, h.trace);
      answers, marks := answers + [a], marks + [|h.trace| - 1];
    }
    forall f | f in h.trace ensures Allowed(f, asked) {
      var i :| 0 <= i < |h.trace| && h.trace[i] == f;
      ChainKeeps(h.trace, asked, i);
    }
  }

  /** Cleaning up after a crash anywhere on any path of actions on one mapping: a full
      remove with no action failing leaves nothing, unless the crash tore the marker,
      in which case it refuses and changes nothing. */
  method RemoveAfterCrash(r: Record, ghost path: seq<Files>, h: Helper) returns (res: Result<bool, Reason>)
    requires Chain(path, {r}) && path[0] == NOTHING
    requires h.Valid() && h.files == path[|path| - 1] && Lucky(h.luck)
    modifies h
    ensures h.Valid() && old(h.trace) <= h.trace
    ensures if old(h.files).marker.Torn? then res == Err(MappingConflict) && h.trace == old(h.trace)
            else res == Ok(true) && h.files == NOTHING
  {
    ChainKeeps(path, {r}, |path| - 1);
    RemoveRefusesOnlyByMarker(h.files, r);
    res := h.Remove(r, r.devices.Keys);
  }

  /** The torn marker is reachable: the very first ensure dies, or fails to write,
      after creating the file. From then on both operations refuse. */
  method TornMarkerIsReachable(h: Helper, r: Record) returns (res: Result<set<nat>, Reason>)
    requires h.Valid() && r in h.asked && h.files == NOTHING && h.luck == [true, false]
    modifies h
    ensures h.Valid() && h.trace == old(h.trace) + [NOTHING.(marker := Torn)] && res == Err(OperationFailed)
    ensures InspectForRemove(h.files, r) == Foreign && Inspect(h.files, r) == Foreign
  {
    res := h.Ensure(r);
  }
}
