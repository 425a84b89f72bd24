// Saving and loading snapshots through a primary, a fallback and a temporary file, with a crash or
// an I/O failure possible at every file-system step (src/persistence/store.cpp).
module Durability {
  import opened Base

  // The three files a store owns. A rename is atomic; a copy or a write may stop half way.
  datatype Disk = Disk(primary: Option<Bytes>, fallback: Option<Bytes>, temporary: Option<Bytes>)

  // What an interrupted copy or write leaves in its target: the old file, or a prefix of the new one.
  datatype Leftover = Untouched | Torn(bytes: nat)

  datatype Fault = Works | Fails(left: Leftover) | Crashes(left: Leftover)

  function Left(source: Bytes, before: Option<Bytes>, left: Leftover): Option<Bytes> {
    match left
    case Untouched => before
    case Torn(n) => Some(source[..Min(n, |source|)])
  }

  datatype Status = Saved | Failed | Died

  // The step of a save that happens next.
  datatype Pc =
    | MakeDirectory
    | Probe
    | DropFallback
    | CopyFallback
    | WriteTemporary
    | DropPrimary
    | Rename
    | Cleanup
    | Stopped(status: Status)
  {
    function Rank(): nat {
      match this
      case MakeDirectory => 8
      case Probe => 7
      case DropFallback => 6
      case CopyFallback => 5
      case WriteTemporary => 4
      case DropPrimary => 3
      case Rename => 2
      case Cleanup => 1
      case Stopped(_) => 0
    }
  }

  // What befalls each step of one save.
  datatype Plan = Plan(directory: Fault, probe: Fault, dropFallback: Fault, copy: Fault,
                       write: Fault, dropPrimary: Fault, rename: Fault, cleanup: Fault)
  {
    function At(pc: Pc): Fault {
      match pc
      case MakeDirectory => directory
      case Probe => probe
      case DropFallback => dropFallback
      case CopyFallback => copy
      case WriteTemporary => write
      case DropPrimary => dropPrimary
      case Rename => rename
      case Cleanup => cleanup
      case Stopped(_) => Works
    }
  }

  // A save in progress; `committed` is the encoding most recently renamed into place.
  datatype State = State(pc: Pc, disk: Disk, pending: Bytes, committed: Option<Bytes>)

  function Halt(f: Fault): Pc {
    Stopped(if f.Crashes? then Died else Failed)
  }

  // One file-system step. A failed existence probe counts as absence and failed removals go
  // unnoticed; a failed copy, write or rename ends the save.
  function Step(s: State, f: Fault): State {
    var d := s.disk;
    match s.pc
    case MakeDirectory => s.(pc := if f.Works? then Probe else Halt(f))
    case Probe =>
      if f.Crashes? then s.(pc := Halt(f))
      else s.(pc := if f.Works? && d.primary.Some? then DropFallback else WriteTemporary)
    case DropFallback =>
      if f.Crashes? then s.(pc := Halt(f))
      else s.(pc := CopyFallback, disk := if f.Works? then d.(fallback := None) else d)
    case CopyFallback =>
      if d.primary.None? then s.(pc := Stopped(Failed))
      else if f.Works? then s.(pc := WriteTemporary, disk := d.(fallback := d.primary))
      else s.(pc := Halt(f), disk := d.(fallback := Left(d.primary.value, d.fallback, f.left)))
    case WriteTemporary =>
      if f.Works? then s.(pc := DropPrimary, disk := d.(temporary := Some(s.pending)))
      else s.(pc := Halt(f), disk := d.(temporary := Left(s.pending, d.temporary, f.left)))
    case DropPrimary =>
      if f.Crashes? then s.(pc := Halt(f))
      else s.(pc := Rename, disk := if f.Works? then d.(primary := None) else d)
    case Rename =>
      if f.Crashes? then s.(pc := Halt(f))
      else if f.Fails? then s.(pc := Cleanup)
      else s.(pc := Stopped(Saved), disk := d.(primary := d.temporary, temporary := None), committed := d.temporary)
    case Cleanup =>
      s.(pc := Halt(f), disk := if f.Works? then d.(temporary := None) else d)
    case Stopped(_) => s
  }

  function Finish(s: State, plan: Plan): (r: State)
    ensures r.pc.Stopped?
    decreases s.pc.Rank()
  {
    if s.pc.Stopped? then s else Finish(Step(s, plan.At(s.pc)), plan)
  }

  function Begin(disk: Disk, pending: Bytes, committed: Option<Bytes>): State {
    State(MakeDirectory, disk, pending, committed)
  }

  // ---- The invariant that survives every step ----

  // The committed encoding is readable: in the primary, or in the fallback with no primary.
  predicate Recoverable(d: Disk, committed: Option<Bytes>) {
    d.primary == committed || (d.primary.None? && d.fallback == committed)
  }

  predicate Fresh(d: Disk, committed: Option<Bytes>) {
    committed.None? ==> d.fallback.None?
  }

  predicate Inv(s: State) {
    && Recoverable(s.disk, s.committed)
    && Fresh(s.disk, s.committed)
    && (s.pc.DropFallback? || s.pc.CopyFallback? ==> s.committed.Some? && s.disk.primary == s.committed)
    && (s.pc.WriteTemporary? || s.pc.DropPrimary? || s.pc.Rename? || s.pc.Cleanup? ==> s.disk.fallback == s.committed)
    && (s.pc.DropPrimary? || s.pc.Rename? ==> s.disk.temporary == Some(s.pending))
  }

  // The existence probe errs while there is a primary that no fallback backs up.
  predicate BlindProbe(s: State, f: Fault) {
    s.pc.Probe? && f.Fails? && s.disk.primary.Some? && s.disk.fallback != s.committed
  }

  // Every step keeps the invariant, whatever befalls it, except a blind probe, which never does.
  lemma StepKeepsInv(s: State, f: Fault)
    requires Inv(s)
    ensures Inv(Step(s, f)) <==> !BlindProbe(s, f)
  {
  }

  // The save has yet to probe, and its probe will be blind.
  predicate GoesBlind(s: State, plan: Plan) {
    (s.pc.MakeDirectory? || s.pc.Probe?) && plan.probe.Fails? && s.disk.primary.Some? && s.disk.fallback != s.committed
  }

  lemma {:induction false} FinishKeepsInv(s: State, plan: Plan)
    requires Inv(s) && !GoesBlind(s, plan)
    ensures Inv(Finish(s, plan))
    decreases s.pc.Rank()
  {
    if !s.pc.Stopped? {
      StepKeepsInv(s, plan.At(s.pc));
      FinishKeepsInv(Step(s, plan.At(s.pc)), plan);
    }
  }

  // ---- Which saves lose the snapshot ----

  // The existence probe errs on a primary that no fallback backs up, so none is made; then the primary is
  // removed and the rename that should replace it does not happen.
  predicate Loses(d: Disk, committed: Option<Bytes>, plan: Plan) {
    && plan.directory.Works? && plan.probe.Fails?
    && d.primary.Some? && d.fallback != committed
    && plan.write.Works? && plan.dropPrimary.Works? && !plan.rename.Works?
  }

  // A save whose probe went blind, from its write on.
  lemma BlindSave(s: State, plan: Plan)
    requires s.pc.WriteTemporary? && s.disk.primary == s.committed && s.committed.Some? && s.disk.fallback != s.committed
    ensures var e := Finish(s, plan);
      Recoverable(e.disk, e.committed) <==> !(plan.write.Works? && plan.dropPrimary.Works? && !plan.rename.Works?)
  {
    OneStep(s, plan);
    var s1 := Step(s, plan.write);
    if !s1.pc.Stopped? {
      OneStep(s1, plan);
      var s2 := Step(s1, plan.dropPrimary);
      if !s2.pc.Stopped? {
        OneStep(s2, plan);
        var s3 := Step(s2, plan.rename);
        if !s3.pc.Stopped? {
          OneStep(s3, plan);
        }
      }
    }
  }

  lemma {:induction false} FreshStays(s: State, plan: Plan)
    requires Fresh(s.disk, s.committed) && (s.disk.primary.Some? ==> s.committed.Some?)
    requires s.pc.DropPrimary? || s.pc.Rename? ==> s.disk.temporary.Some?
    ensures Fresh(Finish(s, plan).disk, Finish(s, plan).committed)
    decreases s.pc.Rank()
  {
    if !s.pc.Stopped? {
      FreshStays(Step(s, plan.At(s.pc)), plan);
    }
  }

  // A save leaves the committed snapshot recoverable, whatever befalls its steps, unless it is one of those.
  lemma SaveRecoversExactly(s: State, a: Attempt)
    requires Settled(s)
    ensures Settled(Attempted(s, a)) <==> !Loses(s.disk, s.committed, a.plan)
    ensures var e := Attempted(s, a); Settled(e) <==> Recoverable(e.disk, e.committed)
  {
    var b := Begin(s.disk, a.bytes, s.committed);
    FreshStays(b, a.plan);
    if GoesBlind(b, a.plan) {
      OneStep(b, a.plan);
      if a.plan.directory.Works? {
        OneStep(Step(b, a.plan.directory), a.plan);
        BlindSave(b.(pc := WriteTemporary), a.plan);
      }
    } else {
      FinishKeepsInv(b, a.plan);
    }
  }

  // ---- Runs ----

  datatype Attempt = Attempt(bytes: Bytes, plan: Plan)

  function Attempted(s: State, a: Attempt): State {
    Finish(Begin(s.disk, a.bytes, s.committed), a.plan)
  }

  function Run(s: State, attempts: seq<Attempt>): State
    decreases |attempts|
  {
    if attempts == [] then s else Run(Attempted(s, attempts[0]), attempts[1..])
  }

  predicate NoneLoses(s: State, attempts: seq<Attempt>)
    decreases |attempts|
  {
    attempts == [] || (!Loses(s.disk, s.committed, attempts[0].plan) && NoneLoses(Attempted(s, attempts[0]), attempts[1..]))
  }

  // The bytes of the last attempt that reported success.
  function LastSaved(s: State, attempts: seq<Attempt>, before: Option<Bytes>): Option<Bytes>
    decreases |attempts|
  {
    if attempts == [] then before
    else
      var t := Attempted(s, attempts[0]);
      LastSaved(t, attempts[1..], if t.pc == Stopped(Saved) then Some(attempts[0].bytes) else before)
  }

  lemma {:induction false} SaveCommits(s: State, plan: Plan)
    requires Inv(s) && !s.pc.Stopped?
    ensures Finish(s, plan).committed
         == if Finish(s, plan).pc == Stopped(Saved) then Some(s.pending) else s.committed
    decreases s.pc.Rank()
  {
    var f := plan.At(s.pc);
    var t := Step(s, f);
    if t.pc.Stopped? {
      assert Finish(t, plan) == t;
    } else if BlindProbe(s, f) {
      BlindSaveCommits(t, plan);
    } else {
      StepKeepsInv(s, f);
      SaveCommits(t, plan);
    }
  }

  lemma BlindSaveCommits(s: State, plan: Plan)
    requires s.pc.WriteTemporary?
    ensures Finish(s, plan).committed
         == if Finish(s, plan).pc == Stopped(Saved) then Some(s.pending) else s.committed
  {
    var s1 := Step(s, plan.write);
    var s2 := Step(s1, plan.At(s1.pc));
    var s3 := Step(s2, plan.At(s2.pc));
    var s4 := Step(s3, plan.At(s3.pc));
    assert Finish(s, plan) == Finish(s1, plan) == Finish(s2, plan) == Finish(s3, plan) == Finish(s4, plan) == s4;
  }

  predicate Settled(s: State) { s.pc.Stopped? && Inv(s) }

  // Over any run of saves, each crashing or failing at any step, the committed encoding is the one most
  // recently renamed into place, and it stays recoverable.
  lemma {:induction false} RunKeepsCommitted(s: State, attempts: seq<Attempt>)
    requires Settled(s) && NoneLoses(s, attempts)
    ensures Settled(Run(s, attempts))
    ensures Run(s, attempts).committed == LastSaved(s, attempts, s.committed)
    decreases |attempts|
  {
    if attempts != [] {
      SaveRecoversExactly(s, attempts[0]);
      SaveCommits(Begin(s.disk, attempts[0].bytes, s.committed), attempts[0].plan);
      RunKeepsCommitted(Attempted(s, attempts[0]), attempts[1..]);
    }
  }

  // At every point of the run the committed snapshot is recoverable.
  ghost predicate AlwaysSettled(s: State, attempts: seq<Attempt>) {
    forall n :: 0 <= n <= |attempts| ==> Settled(Run(s, attempts[..n]))
  }

  lemma {:induction false} FirstUnsettled(s: State, attempts: seq<Attempt>) returns (n: nat)
    requires Settled(s) && !NoneLoses(s, attempts)
    ensures n <= |attempts| && !Settled(Run(s, attempts[..n]))
    decreases |attempts|
  {
    var t := Attempted(s, attempts[0]);
    SaveRecoversExactly(s, attempts[0]);
    if Loses(s.disk, s.committed, attempts[0].plan) {
      n := 1;
      assert attempts[..1][1..] == [];
    } else {
      n := FirstUnsettled(t, attempts[1..]);
      n := n + 1;
      assert attempts[..n][1..] == attempts[1..][..n - 1];
    }
  }

  lemma {:induction false} NoneLosesBefore(s: State, attempts: seq<Attempt>, n: nat)
    requires NoneLoses(s, attempts) && n <= |attempts|
    ensures NoneLoses(s, attempts[..n])
    decreases |attempts|
  {
    if n > 0 {
      assert attempts[..n][1..] == attempts[1..][..n - 1];
      NoneLosesBefore(Attempted(s, attempts[0]), attempts[1..], n - 1);
    }
  }

  // A run keeps the committed snapshot recoverable throughout exactly when none of its saves loses it.
  lemma RunRecoversExactly(s: State, attempts: seq<Attempt>)
    requires Settled(s)
    ensures AlwaysSettled(s, attempts) <==> NoneLoses(s, attempts)
  {
    if NoneLoses(s, attempts) {
      forall n | 0 <= n <= |attempts| ensures Settled(Run(s, attempts[..n])) {
        NoneLosesBefore(s, attempts, n);
        RunKeepsCommitted(s, attempts[..n]);
      }
    } else {
      var n := FirstUnsettled(s, attempts);
    }
  }

  // ---- Loading ----

  datatype LoadOutcome = LoadedPrimary | LoadedFallback | LoadedNothing

  datatype LoadReport<+C> = LoadReport(outcome: LoadOutcome, content: Option<C>, integrityFailure: bool, versionMismatch: bool)

  // Reading a file within the configured bound, then decoding it.
  function ReadAndDecode<C>(file: Bytes, maxBytes: nat, decode: Bytes -> Result<C>): Result<C> {
    if |file| > maxBytes then Err(LimitExceeded) else decode(file)
  }

  // How a file meets its reader: its existence probe and its reading work, the probe errs, or the reading fails.
  datatype Sight = Seen | Missed | Unreadable

  // A probe that errs counts as absence.
  predicate Present(file: Option<Bytes>, sight: Sight) { file.Some? && !sight.Missed? }

  predicate Readable(file: Bytes, sight: Sight, maxBytes: nat) { sight.Seen? && |file| <= maxBytes }

  function LoadFrom<C>(d: Disk, first: Sight, second: Sight, maxBytes: nat, decode: Bytes -> Result<C>): LoadReport<C> {
    var present := Present(d.primary, first);
    var readable := present && Readable(d.primary.value, first, maxBytes);
    if readable && decode(d.primary.value).Ok? then LoadReport(LoadedPrimary, Some(decode(d.primary.value).value), false, false)
    else
      var integrity := present && (!readable || decode(d.primary.value).error == IntegrityFailure);
      var version := readable && decode(d.primary.value).error == VersionMismatch;
      if Present(d.fallback, second) && Readable(d.fallback.value, second, maxBytes) && decode(d.fallback.value).Ok?
      then LoadReport(LoadedFallback, Some(decode(d.fallback.value).value), integrity, version)
      else LoadReport(LoadedNothing, None, integrity || Present(d.fallback, second), version)
  }

  // Loading returns the committed snapshot, from whichever file holds it.
  lemma LoadReturnsCommitted<C>(d: Disk, committed: Option<Bytes>, maxBytes: nat, decode: Bytes -> Result<C>)
    requires Recoverable(d, committed) && Fresh(d, committed)
    requires committed.Some? ==> |committed.value| <= maxBytes && decode(committed.value).Ok?
    ensures var report := LoadFrom(d, Seen, Seen, maxBytes, decode);
            if committed.None? then report.outcome == LoadedNothing && report.content == None
            else report.content == Some(decode(committed.value).value)
                 && report.outcome == if d.primary.Some? then LoadedPrimary else LoadedFallback
  {
  }

  // The file that holds the committed snapshot is the one loaded exactly when it is seen and read, fits the
  // bound on whole files and decodes. Otherwise an older fallback may be.
  lemma CommittedLoadsExactly<C>(d: Disk, b: Bytes, first: Sight, second: Sight, maxBytes: nat, decode: Bytes -> Result<C>)
    requires Recoverable(d, Some(b))
    ensures var holder := if d.primary.Some? then LoadedPrimary else LoadedFallback;
            var sight := if d.primary.Some? then first else second;
            LoadFrom(d, first, second, maxBytes, decode).outcome == holder
            <==> sight.Seen? && |b| <= maxBytes && decode(b).Ok?
  {
  }

  // When each failure flag is set. A mismatch is only ever reported of the primary; an integrity failure is
  // reported of a primary that cannot be read or fails its checks, and of any fallback that is there but not
  // loaded, whatever its decoder says.
  lemma FlagsExactly<C>(d: Disk, first: Sight, second: Sight, maxBytes: nat, decode: Bytes -> Result<C>)
    ensures var report := LoadFrom(d, first, second, maxBytes, decode);
      && (report.versionMismatch <==>
            d.primary.Some? && first.Seen? && |d.primary.value| <= maxBytes && decode(d.primary.value) == Err(VersionMismatch))
      && (report.integrityFailure <==>
            || (d.primary.Some? && first.Unreadable?)
            || (d.primary.Some? && first.Seen? && |d.primary.value| > maxBytes)
            || (d.primary.Some? && first.Seen? && decode(d.primary.value) == Err(IntegrityFailure))
            || (d.fallback.Some? && !second.Missed? && report.outcome == LoadedNothing))
      && (report.outcome == LoadedPrimary ==> !report.integrityFailure && !report.versionMismatch)
  {
  }

  // A fallback written for other limits or another policy is reported as damaged.
  lemma FallbackMismatchHidden<C>(b: Bytes, maxBytes: nat, decode: Bytes -> Result<C>)
    requires |b| <= maxBytes && decode(b) == Err(VersionMismatch)
    ensures LoadFrom(Disk(None, Some(b), None), Seen, Seen, maxBytes, decode) == LoadReport(LoadedNothing, None, true, false)
  {
  }

  // The main result: any run, then a load.
  lemma RunThenLoad<C>(attempts: seq<Attempt>, maxBytes: nat, decode: Bytes -> Result<C>)
    requires NoneLoses(EMPTY, attempts)
    requires forall a :: a in attempts ==> |a.bytes| <= maxBytes && decode(a.bytes).Ok?
    ensures var content := LoadFrom(Run(EMPTY, attempts).disk, Seen, Seen, maxBytes, decode).content;
            match LastSaved(EMPTY, attempts, None)
            case None => content == None
            case Some(b) => decode(b).Ok? && content == Some(decode(b).value)
  {
    RunKeepsCommitted(EMPTY, attempts);
    LastSavedIsAttempt(EMPTY, attempts, None);
    var s := Run(EMPTY, attempts);
    LoadReturnsCommitted(s.disk, s.committed, maxBytes, decode);
  }

  const EMPTY: State := State(Stopped(Failed), Disk(None, None, None), [], None)

  lemma {:induction false} LastSavedIsAttempt(s: State, attempts: seq<Attempt>, before: Option<Bytes>)
    ensures LastSaved(s, attempts, before) == before
         || exists a :: a in attempts && LastSaved(s, attempts, before) == Some(a.bytes)
    decreases |attempts|
  {
    if attempts != [] {
      var t := Attempted(s, attempts[0]);
      var next := if t.pc == Stopped(Saved) then Some(attempts[0].bytes) else before;
      LastSavedIsAttempt(t, attempts[1..], next);
      assert attempts[0] in attempts;
    }
  }

  // The exception is real: an existence probe that errs, then a crash after the primary is removed,
  // and the only committed snapshot is gone although no save reported success after it.
  lemma BlindProbeLosesSnapshot<C>(a: Bytes, b: Bytes, maxBytes: nat, decode: Bytes -> Result<C>)
    ensures var fine := Plan(Works, Works, Works, Works, Works, Works, Works, Works);
            var blind := fine.(probe := Fails(Untouched), rename := Crashes(Untouched));
            var run := [Attempt(a, fine), Attempt(b, blind)];
            && LastSaved(EMPTY, run, None) == Some(a)
            && LoadFrom(Run(EMPTY, run).disk, Seen, Seen, maxBytes, decode).outcome == LoadedNothing
  {
    var fine := Plan(Works, Works, Works, Works, Works, Works, Works, Works);
    var blind := fine.(probe := Fails(Untouched), rename := Crashes(Untouched));
    var run := [Attempt(a, fine), Attempt(b, blind)];
    var s0 := Begin(EMPTY.disk, a, None);
    var s2 := s0.(pc := WriteTemporary);
    var s5 := State(Stopped(Saved), Disk(Some(a), None, None), a, Some(a));
    TwoSteps(s0, s2, fine);
    ThreeSteps(s2, s5, fine);
    var t0 := Begin(s5.disk, b, s5.committed);
    var t2 := t0.(pc := WriteTemporary);
    var t5 := State(Stopped(Died), Disk(None, None, Some(b)), b, Some(a));
    TwoSteps(t0, t2, blind);
    ThreeSteps(t2, t5, blind);
    assert run[1..] == [Attempt(b, blind)];
    assert Attempted(EMPTY, run[0]) == s5 && Attempted(s5, run[1]) == t5;
    assert Run(EMPTY, run) == Run(s5, [Attempt(b, blind)]) == t5;
    assert LastSaved(EMPTY, run, None) == LastSaved(s5, [Attempt(b, blind)], Some(a)) == Some(a);
  }

  lemma OneStep(s: State, plan: Plan)
    requires !s.pc.Stopped?
    ensures var t := Step(s, plan.At(s.pc)); Finish(s, plan) == if t.pc.Stopped? then t else Finish(t, plan)
  {
  }

  lemma TwoSteps(s: State, t: State, plan: Plan)
    requires var s1 := Step(s, plan.At(s.pc)); !s.pc.Stopped? && !s1.pc.Stopped? && t == Step(s1, plan.At(s1.pc))
    ensures Finish(s, plan) == Finish(t, plan)
  {
  }

  lemma ThreeSteps(s: State, t: State, plan: Plan)
    requires var s1 := Step(s, plan.At(s.pc)); var s2 := Step(s1, plan.At(s1.pc));
             !s.pc.Stopped? && !s1.pc.Stopped? && !s2.pc.Stopped? && t == Step(s2, plan.At(s2.pc)) && t.pc.Stopped?
    ensures Finish(s, plan) == t
  {
    var s1 := Step(s, plan.At(s.pc));
    TwoSteps(s1, t, plan);
    assert Finish(t, plan) == t;
  }

  // ---- The store ----

  datatype SaveResult = Report(bytesWritten: nat) | Refused(error: ErrorCode) | Interrupted

  class SnapshotStore<C(!new)> {
    const maxBytes: nat
    const encode: C -> Result<Bytes>
    const decode: Bytes -> Result<C>

    // The files as they are on disk.
    var primary: Option<Bytes>
    var fallback: Option<Bytes>
    var temporary: Option<Bytes>
    ghost var committed: Option<Bytes>

    function Files(): Disk
      reads this
    {
      Disk(primary, fallback, temporary)
    }

    ghost predicate Valid()
      reads this
    {
      Recoverable(Files(), committed) && Fresh(Files(), committed)
    }

    constructor (max: nat, enc: C -> Result<Bytes>, dec: Bytes -> Result<C>)
      ensures Valid() && Files() == Disk(None, None, None) && committed == None
      ensures maxBytes == max && encode == enc && decode == dec
    {
      maxBytes, encode, decode := max, enc, dec;
      primary, fallback, temporary, committed := None, None, None, None;
    }

    // One save, with the given fate of every step. It ends in the state of the step machine, and the
    // store stays valid exactly when the save is not one that loses the snapshot.
    method Save(content: C, plan: Plan) returns (r: SaveResult)
      requires Valid()
      modifies this
      ensures encode(content).Err? ==>
                r == Refused(encode(content).error) && Files() == old(Files()) && committed == old(committed)
      ensures encode(content).Ok? ==>
                var end := Finish(Begin(old(Files()), encode(content).value, old(committed)), plan);
                && Files() == end.disk && committed == end.committed
                && r == match end.pc.status
                        case Saved => Report(|encode(content).value|)
                        case Failed => Refused(IoError)
                        case Died => Interrupted
      ensures encode(content).Ok? ==> (Valid() <==> !Loses(old(Files()), old(committed), plan))
    {
      var encoded := encode(content);
      if encoded.Err? {
        return Refused(encoded.error);
      }
      ghost var start := Begin(Files(), encoded.value, committed);
      SaveRecoversExactly(State(Stopped(Failed), Files(), encoded.value, committed), Attempt(encoded.value, plan));
      if !plan.directory.Works? {
        return Abandoned(plan.directory);
      }
      ghost var probed := Step(Step(start, plan.directory), plan.probe);
      TwoSteps(start, probed, plan);
      if plan.probe.Crashes? {
        return Interrupted;
      }
      if plan.probe.Works? && primary.Some? {
        assert Finish(probed, plan) == Finish(Step(probed, plan.dropFallback), plan);
        if plan.dropFallback.Crashes? {
          return Interrupted;
        }
        if plan.dropFallback.Works? {
          fallback := None;
        }
        if !plan.copy.Works? {
          fallback := Left(primary.value, fallback, plan.copy.left);
          OneStep(Step(probed, plan.dropFallback), plan);
          return Abandoned(plan.copy);
        }
        fallback := primary;
      }
      ghost var midway := State(WriteTemporary, Files(), encoded.value, committed);
      assert Finish(start, plan) == Finish(midway, plan) by {
        ReachWrite(start, midway, plan);
      }
      r := WriteFileAtomic(encoded.value, plan);
    }

    function Abandoned(f: Fault): SaveResult {
      if f.Crashes? then Interrupted else Refused(IoError)
    }

    // Writes beside the target, then renames over it.
    method WriteFileAtomic(bytes: Bytes, plan: Plan) returns (r: SaveResult)
      modifies this`primary, this`temporary, this`committed
      ensures var end := Finish(State(WriteTemporary, old(Files()), bytes, old(committed)), plan);
              && Files() == end.disk && committed == end.committed
              && r == match end.pc.status
                      case Saved => Report(|bytes|)
                      case Failed => Refused(IoError)
                      case Died => Interrupted
    {
      ghost var s0 := State(WriteTemporary, Files(), bytes, committed);
      if !plan.write.Works? {
        temporary := Left(bytes, temporary, plan.write.left);
        return Abandoned(plan.write);
      }
      temporary := Some(bytes);
      ghost var s1 := Step(s0, plan.write);
      OneStep(s0, plan);
      OneStep(s1, plan);
      if plan.dropPrimary.Crashes? {
        return Interrupted;
      }
      if plan.dropPrimary.Works? {
        primary := None;
      }
      ghost var s2 := Step(s1, plan.dropPrimary);
      assert Finish(s1, plan) == Finish(s2, plan) == Finish(Step(s2, plan.rename), plan);
      if plan.rename.Crashes? {
        return Interrupted;
      }
      if plan.rename.Fails? {
        if plan.cleanup.Works? {
          temporary := None;
        }
        ghost var s3 := Step(s2, plan.rename);
        TwoSteps(s2, Step(s3, plan.cleanup), plan);
        return Abandoned(plan.cleanup);
      }
      primary, temporary, committed := temporary, None, temporary;
      return Report(|bytes|);
    }

    method Load(first: Sight, second: Sight) returns (report: LoadReport<C>)
      ensures report == LoadFrom(Files(), first, second, maxBytes, decode)
    {
      report := LoadReport(LoadedNothing, None, false, false);
      if primary.Some? && !first.Missed? {
        if first.Seen? && |primary.value| <= maxBytes {
          var decoded := decode(primary.value);
          if decoded.Ok? {
            return LoadReport(LoadedPrimary, Some(decoded.value), false, false);
          }
          report := report.(integrityFailure := decoded.error == IntegrityFailure,
                            versionMismatch := decoded.error == VersionMismatch);
        } else {
          report := report.(integrityFailure := true);
        }
      }
      if fallback.Some? && !second.Missed? {
        if second.Seen? && |fallback.value| <= maxBytes {
          var decoded := decode(fallback.value);
          if decoded.Ok? {
            return report.(outcome := LoadedFallback, content := Some(decoded.value));
          }
          report := report.(integrityFailure := true);
        } else {
          report := report.(integrityFailure := true);
        }
      }
    }
  }

  // From the start of a save to its write: the steps that retain the previous snapshot.
  lemma ReachWrite(s: State, t: State, plan: Plan)
    requires s.pc.MakeDirectory? && plan.directory.Works? && !plan.probe.Crashes?
    requires s.disk.primary.Some? && plan.probe.Works? ==> !plan.dropFallback.Crashes? && plan.copy.Works?
    requires t == s.(pc := WriteTemporary,
                     disk := if s.disk.primary.Some? && plan.probe.Works? then s.disk.(fallback := s.disk.primary) else s.disk)
    ensures Finish(s, plan) == Finish(t, plan)
  {
    var s2 := Step(Step(s, plan.directory), plan.probe);
    TwoSteps(s, s2, plan);
    if s2.pc.DropFallback? {
      TwoSteps(s2, t, plan);
    }
  }
}
