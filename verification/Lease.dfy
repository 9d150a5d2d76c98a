/**
The life of one database handle: NIF calls on any number of threads, the native
iterators and snapshots whose lifetime the crate extends to `'static`, the lease
counter that stands for them, and `close`.

Every call is cut into the steps between which another thread may run. A
resource is destroyed field by field, once nothing refers to it any more.
*/
module Lease {
  import opened Wrappers

  type Id = nat

  datatype Reply = Done | Created | ClosedError | BusyError | UnknownCf

  /** What a call does once it holds the read guard of the database. */
  datatype Job = Query | MakeIter | MakeSnap | SnapQueryCf(snap: Id) | SnapIterCf(snap: Id)

  /** Where a thread stands; `guarded` says whether it holds the read guard as well. */
  datatype Call =
    | Idle(last: Option<Reply>)
    | WantRead(job: Job)                               // waiting for the read guard
    | Guarded(job: Job)                                // guard held, database present
    | IterNative | IterLeased | IterBuilt              // make_iterator_resource, guard held throughout
    | SnapNative | SnapLeased | SnapUnguarded          // snapshot: the guard goes before the resource is built
    | WantMutex(snap: Id, guarded: bool, iterate: bool)
    | Locked(snap: Id, guarded: bool, iterate: bool)   // the snapshot's mutex is held
    | SnapIterNative(snap: Id, guarded: bool)
    | SnapIterBuilt(snap: Id, guarded: bool)
    | Leaving(snap: Id, guarded: bool, reply: Reply)   // mutex released
    | WantIter(iter: Id)
    | InIter(iter: Id)                                 // the iterator's mutex is held
    | WantWrite | Writing                              // column-family changes
    | WantClose | Closing | CountedZero | Dropped      // close: guard, count check, drop

  /** How far the destructor of a resource has come, in the order of its fields. */
  datatype Part = Whole | NoNative | NoOwner | NoSnapshot | NoLease | Gone

  /** `held`: some Erlang term refers to it. `snap`: the snapshot it keeps alive instead of a lease. */
  datatype Iter = Iter(held: bool, snap: Option<Id>, part: Part)

  datatype Snap = Snap(held: bool, part: Part)

  datatype State = State(
    open: bool,               // the database is present and not destroyed
    handle: bool,             // some Erlang term refers to the handle
    leases: int,
    calls: map<Id, Call>,
    iters: map<Id, Iter>,
    snaps: map<Id, Snap>)

  const FRESH := State(true, true, 0, map[], map[], map[])

  function CallOf(s: State, t: Id): Call {
    if t in s.calls then s.calls[t] else Idle(None)
  }

  // ---------- who holds what ----------

  predicate HoldsRead(c: Call) {
    c.Guarded? || c.IterNative? || c.IterLeased? || c.IterBuilt? || c.SnapNative? || c.SnapLeased?
    || ((c.WantMutex? || c.Locked? || c.SnapIterNative? || c.SnapIterBuilt? || c.Leaving?) && c.guarded)
  }

  predicate HoldsWrite(c: Call) {
    c.Writing? || c.Closing? || c.CountedZero? || c.Dropped?
  }

  predicate HoldsMutex(c: Call, sn: Id) {
    (c.Locked? || c.SnapIterNative? || c.SnapIterBuilt?) && c.snap == sn
  }

  /** A native iterator or snapshot that is not in a resource yet. */
  predicate HasNative(c: Call) {
    c.IterNative? || c.IterLeased? || c.SnapNative? || c.SnapLeased? || c.SnapUnguarded? || c.SnapIterNative?
  }

  /** The native database, snapshot or iterator is being used. */
  predicate UsesNative(c: Call) {
    HasNative(c) || c.Guarded? || c.Locked? || c.InIter? || c.Writing?
  }

  /** The snapshot resource that the call was given. */
  function SnapOf(c: Call): Option<Id> {
    match c
    case WantRead(SnapQueryCf(sn)) => Some(sn)
    case WantRead(SnapIterCf(sn)) => Some(sn)
    case Guarded(SnapQueryCf(sn)) => Some(sn)
    case Guarded(SnapIterCf(sn)) => Some(sn)
    case WantMutex(sn, _, _) => Some(sn)
    case Locked(sn, _, _) => Some(sn)
    case SnapIterNative(sn, _) => Some(sn)
    case SnapIterBuilt(sn, _) => Some(sn)
    case Leaving(sn, _, _) => Some(sn)
    case _ => None
  }

  function IterOf(c: Call): Option<Id> {
    if c.WantIter? || c.InIter? then Some(c.iter) else None
  }

  /** The call was given the handle itself. */
  predicate HoldsHandle(c: Call) {
    !c.Idle? && SnapOf(c).None? && IterOf(c).None?
  }

  predicate CallLeases(c: Call) {
    c.IterLeased? || c.SnapLeased? || c.SnapUnguarded?
  }

  predicate IterLeases(r: Iter) {
    r.snap.None? && (r.part.Whole? || r.part.NoNative? || r.part.NoOwner? || r.part.NoSnapshot?)
  }

  predicate SnapLeases(r: Snap) {
    r.part.Whole? || r.part.NoNative? || r.part.NoOwner?
  }

  /** Fields that refer to the handle: `_owner`, and the owner inside the lease. */
  predicate IterHoldsHandle(r: Iter) {
    r.part.Whole? || r.part.NoNative? || (r.snap.None? && !r.part.Gone?)
  }

  predicate SnapHoldsHandle(r: Snap) {
    !r.part.Gone?
  }

  predicate IterHoldsSnap(r: Iter, sn: Id) {
    r.snap == Some(sn) && (r.part.Whole? || r.part.NoNative? || r.part.NoOwner?)
  }

  ghost predicate IterUnreferenced(s: State, i: Id)
    requires i in s.iters
  {
    !s.iters[i].held && forall t :: t in s.calls ==> IterOf(s.calls[t]) != Some(i)
  }

  ghost predicate SnapUnreferenced(s: State, sn: Id)
    requires sn in s.snaps
  {
    && !s.snaps[sn].held
    && (forall t :: t in s.calls ==> SnapOf(s.calls[t]) != Some(sn))
    && (forall i :: i in s.iters ==> !IterHoldsSnap(s.iters[i], sn))
  }

  ghost predicate HandleUnreferenced(s: State) {
    && !s.handle
    && (forall t :: t in s.calls ==> !HoldsHandle(s.calls[t]))
    && (forall i :: i in s.iters ==> !IterHoldsHandle(s.iters[i]))
    && (forall sn :: sn in s.snaps ==> !SnapHoldsHandle(s.snaps[sn]))
  }

  // ---------- steps ----------

  datatype Action =
    | Begin(thread: Id, call: Call)
    | Go(thread: Id, newId: Id)      // the thread's next step; `newId` names a resource it builds
    | FindNoCf(thread: Id)           // a column family that does not exist
    | ForgetHandle | ForgetIter(iter: Id) | ForgetSnap(snap: Id)
    | DropIter(iter: Id) | DropSnap(snap: Id) | DropHandle

  /** The first step of each call, with the argument that an Erlang term must supply. */
  ghost predicate CanBegin(s: State, c: Call) {
    match c
    case WantRead(SnapQueryCf(sn)) => sn in s.snaps && s.snaps[sn].held
    case WantRead(SnapIterCf(sn)) => sn in s.snaps && s.snaps[sn].held
    case WantRead(_) => s.handle
    case WantMutex(sn, guarded, _) => !guarded && sn in s.snaps && s.snaps[sn].held
    case WantIter(i) => i in s.iters && s.iters[i].held
    case WantWrite => s.handle
    case WantClose => s.handle
    case _ => false
  }

  ghost predicate Blocked(s: State, t: Id) {
    match CallOf(s, t)
    case WantRead(_) => exists u :: u in s.calls && HoldsWrite(s.calls[u])
    case WantWrite => exists u :: u in s.calls && (HoldsWrite(s.calls[u]) || HoldsRead(s.calls[u]))
    case WantClose => exists u :: u in s.calls && (HoldsWrite(s.calls[u]) || HoldsRead(s.calls[u]))
    case WantMutex(sn, _, _) => exists u :: u in s.calls && HoldsMutex(s.calls[u], sn)
    case WantIter(i) => exists u :: u in s.calls && s.calls[u] == InIter(i)
    case _ => false
  }

  ghost predicate Enabled(s: State, a: Action) {
    match a
    case Begin(t, c) => CallOf(s, t).Idle? && CanBegin(s, c)
    case Go(t, newId) => !CallOf(s, t).Idle? && !Blocked(s, t) && newId !in s.iters && newId !in s.snaps
    case FindNoCf(t) => CallOf(s, t).Guarded?
    case ForgetHandle => s.handle
    case ForgetIter(i) => i in s.iters && s.iters[i].held
    case ForgetSnap(sn) => sn in s.snaps && s.snaps[sn].held
    case DropIter(i) =>
      i in s.iters && !s.iters[i].part.Gone? && (s.iters[i].part.Whole? ==> IterUnreferenced(s, i))
    case DropSnap(sn) =>
      sn in s.snaps && !s.snaps[sn].part.Gone? && (s.snaps[sn].part.Whole? ==> SnapUnreferenced(s, sn))
    case DropHandle => s.open && HandleUnreferenced(s)
  }

  function AtCall(s: State, t: Id, c: Call): State {
    s.(calls := s.calls[t := c])
  }

  /** Where a thread that is not blocked goes next. */
  function NextCall(s: State, c: Call): Call {
    match c
    case Idle(_) => c
    case WantRead(job) => if s.open then Guarded(job) else Idle(Some(ClosedError))
    case Guarded(Query) => Idle(Some(Done))
    case Guarded(MakeIter) => IterNative
    case Guarded(MakeSnap) => SnapNative
    case Guarded(SnapQueryCf(sn)) => WantMutex(sn, true, false)
    case Guarded(SnapIterCf(sn)) => WantMutex(sn, true, true)
    case IterNative => IterLeased
    case IterLeased => IterBuilt
    case IterBuilt => Idle(Some(Created))
    case SnapNative => SnapLeased
    case SnapLeased => SnapUnguarded
    case SnapUnguarded => Idle(Some(Created))
    case WantMutex(sn, guarded, iterate) => Locked(sn, guarded, iterate)
    case Locked(sn, guarded, iterate) => if iterate then SnapIterNative(sn, guarded) else Leaving(sn, guarded, Done)
    case SnapIterNative(sn, guarded) => SnapIterBuilt(sn, guarded)
    case SnapIterBuilt(sn, guarded) => Leaving(sn, guarded, Created)
    case Leaving(_, _, reply) => Idle(Some(reply))
    case WantIter(i) => InIter(i)
    case InIter(_) => Idle(Some(Done))
    case WantWrite => if s.open then Writing else Idle(Some(ClosedError))
    case Writing => Idle(Some(Done))
    case WantClose => Closing
    case Closing => if !s.open then Idle(Some(Done)) else if s.leases != 0 then Idle(Some(BusyError)) else CountedZero
    case CountedZero => Dropped
    case Dropped => Idle(Some(Done))
  }

  /** The iterator resource that the step builds: with a lease of its own, or with the snapshot in its place. */
  function BuiltIter(c: Call): Option<Iter> {
    match c
    case IterLeased => Some(Iter(true, None, Whole))
    case SnapIterNative(sn, _) => Some(Iter(true, Some(sn), Whole))
    case _ => None
  }

  /** One step of a thread: `fetch_add` after the native child exists, the drop of the database after the count. */
  function Step(s: State, t: Id, newId: Id): State {
    var c := CallOf(s, t);
    State(
      s.open && !c.CountedZero?,
      s.handle,
      s.leases + if c.IterNative? || c.SnapNative? then 1 else 0,
      s.calls[t := NextCall(s, c)],
      if BuiltIter(c).Some? then s.iters[newId := BuiltIter(c).value] else s.iters,
      if c.SnapUnguarded? then s.snaps[newId := Snap(true, Whole)] else s.snaps)
  }

  /** The fields of `IteratorResource` in declaration order; the last one is the lease, if there is one. */
  function NextIterPart(r: Iter): Part {
    match r.part
    case Whole => NoNative
    case NoNative => NoOwner
    case NoOwner => NoSnapshot
    case NoSnapshot => if r.snap.None? then NoLease else Gone
    case NoLease => Gone
    case Gone => Gone
  }

  /** The fields of `SnapshotResource`; dropping the lease subtracts first and releases its owner after. */
  function NextSnapPart(r: Snap): Part {
    match r.part
    case Whole => NoNative
    case NoNative => NoOwner
    case NoOwner => NoLease
    case NoSnapshot => Gone
    case NoLease => Gone
    case Gone => Gone
  }

  ghost function Apply(s: State, a: Action): State
    requires Enabled(s, a)
  {
    match a
    case Begin(t, c) => AtCall(s, t, c)
    case Go(t, newId) => Step(s, t, newId)
    case FindNoCf(t) => AtCall(s, t, Idle(Some(UnknownCf)))
    case ForgetHandle => s.(handle := false)
    case ForgetIter(i) => s.(iters := s.iters[i := s.iters[i].(held := false)])
    case ForgetSnap(sn) => s.(snaps := s.snaps[sn := s.snaps[sn].(held := false)])
    case DropIter(i) =>
      var r := s.iters[i].(part := NextIterPart(s.iters[i]));
      s.(iters := s.iters[i := r], leases := s.leases - if IterLeases(s.iters[i]) && !IterLeases(r) then 1 else 0)
    case DropSnap(sn) =>
      var r := s.snaps[sn].(part := NextSnapPart(s.snaps[sn]));
      s.(snaps := s.snaps[sn := r], leases := s.leases - if SnapLeases(s.snaps[sn]) && !SnapLeases(r) then 1 else 0)
    case DropHandle => s.(open := false)
  }

  ghost predicate CanRun(s: State, run: seq<Action>)
    decreases |run|
  {
    run != [] ==> Enabled(s, run[0]) && CanRun(Apply(s, run[0]), run[1..])
  }

  ghost function Run(s: State, run: seq<Action>): State
    requires CanRun(s, run)
    decreases |run|
  {
    if run == [] then s else Run(Apply(s, run[0]), run[1..])
  }

  // ---------- lease conservation ----------

  ghost function Holders<V>(m: map<Id, V>, holds: V -> bool): set<Id> {
    set k | k in m && holds(m[k])
  }

  lemma HoldersUpdate<V>(m: map<Id, V>, k: Id, v: V, holds: V -> bool)
    ensures |Holders(m[k := v], holds)|
            == |Holders(m, holds)| - (if k in m && holds(m[k]) then 1 else 0) + (if holds(v) then 1 else 0)
  {
    var rest := Holders(m, holds) - {k};
    assert Holders(m[k := v], holds) == if holds(v) then rest + {k} else rest;
  }

  /** Live snapshots, live direct iterators and leases in the hands of creating threads. */
  ghost function LeaseCount(s: State): int {
    |Holders(s.calls, CallLeases)| + |Holders(s.iters, IterLeases)| + |Holders(s.snaps, SnapLeases)|
  }

  lemma GoConservesLeases(s: State, t: Id, newId: Id)
    requires !CallOf(s, t).Idle? && newId !in s.iters && newId !in s.snaps && s.leases == LeaseCount(s)
    ensures Step(s, t, newId).leases == LeaseCount(Step(s, t, newId))
  {
    hide Holders;
    var c := CallOf(s, t);
    HoldersUpdate(s.calls, t, NextCall(s, c), CallLeases);
    if BuiltIter(c).Some? {
      HoldersUpdate(s.iters, newId, BuiltIter(c).value, IterLeases);
    }
    HoldersUpdate(s.snaps, newId, Snap(true, Whole), SnapLeases);
  }

  lemma DropConservesLeases(s: State, a: Action)
    requires Enabled(s, a) && (a.DropIter? || a.DropSnap?) && s.leases == LeaseCount(s)
    ensures Apply(s, a).leases == LeaseCount(Apply(s, a))
  {
    hide Holders, IterUnreferenced, SnapUnreferenced, NextIterPart, NextSnapPart, IterLeases, SnapLeases;
    match a {
      case DropIter(i) =>
        HoldersUpdate(s.iters, i, Apply(s, a).iters[i], IterLeases);
        NextPartLosesLease(s.iters[i]);
      case DropSnap(sn) =>
        HoldersUpdate(s.snaps, sn, Apply(s, a).snaps[sn], SnapLeases);
        SnapPartLosesLease(s.snaps[sn]);
      case _ =>
    }
  }

  lemma NextPartLosesLease(r: Iter)
    ensures IterLeases(r.(part := NextIterPart(r))) ==> IterLeases(r)
  {
  }

  lemma SnapPartLosesLease(r: Snap)
    ensures SnapLeases(r.(part := NextSnapPart(r))) ==> SnapLeases(r)
  {
  }

  predicate Waiting(c: Call) {
    c.WantRead? || (c.WantMutex? && !c.guarded) || c.WantIter? || c.WantWrite? || c.WantClose?
  }

  lemma CallsBeginWaiting(s: State, c: Call)
    requires CanBegin(s, c)
    ensures Waiting(c)
    ensures SnapOf(c).Some? ==> SnapOf(c).value in s.snaps && s.snaps[SnapOf(c).value].held
    ensures IterOf(c).Some? ==> IterOf(c).value in s.iters && s.iters[IterOf(c).value].held
  {
  }

  lemma StepConservesLeases(s: State, a: Action)
    requires Enabled(s, a) && s.leases == LeaseCount(s)
    ensures Apply(s, a).leases == LeaseCount(Apply(s, a))
  {
    hide Holders, Blocked, CanBegin, IterUnreferenced, SnapUnreferenced, HandleUnreferenced,
      Step, NextIterPart, NextSnapPart;
    match a
    case Begin(t, c) =>
      CallsBeginWaiting(s, c);
      HoldersUpdate(s.calls, t, c, CallLeases);
    case Go(t, newId) => GoConservesLeases(s, t, newId);
    case FindNoCf(t) => HoldersUpdate(s.calls, t, Idle(Some(UnknownCf)), CallLeases);
    case ForgetHandle =>
    case ForgetIter(i) => HoldersUpdate(s.iters, i, s.iters[i].(held := false), IterLeases);
    case ForgetSnap(sn) => HoldersUpdate(s.snaps, sn, s.snaps[sn].(held := false), SnapLeases);
    case DropIter(i) => DropConservesLeases(s, a);
    case DropSnap(sn) => DropConservesLeases(s, a);
    case DropHandle =>
  }

  // ---------- what every step keeps ----------

  ghost predicate SnapWhole(s: State, sn: Id) {
    sn in s.snaps && s.snaps[sn].part.Whole?
  }

  /** Past its check a call keeps the database open: by a guard, a lease, or a zero count under the write guard. */
  predicate NeedsOpen(c: Call) {
    HoldsRead(c) || c.Writing? || c.CountedZero? || c.SnapUnguarded?
  }

  ghost predicate CallOk(s: State, c: Call) {
    && (NeedsOpen(c) ==> s.open)
    && (SnapOf(c).Some? ==> SnapWhole(s, SnapOf(c).value))
    && (IterOf(c).Some? ==> IterOf(c).value in s.iters && s.iters[IterOf(c).value].part.Whole?)
    && (c.CountedZero? ==> s.leases == 0)
  }

  ghost predicate IterOk(s: State, r: Iter) {
    && (r.held ==> r.part.Whole?)
    && (r.snap.None? && r.part.Whole? ==> s.open)
    && (r.snap.Some? && IterHoldsSnap(r, r.snap.value) ==> SnapWhole(s, r.snap.value))
  }

  ghost predicate SnapOk(s: State, r: Snap) {
    && (r.held ==> r.part.Whole?)
    && (r.part.Whole? ==> s.open)
  }

  ghost predicate CallsOk(s: State) {
    forall t :: t in s.calls ==> CallOk(s, s.calls[t])
  }

  ghost predicate ItersOk(s: State) {
    forall i :: i in s.iters ==> IterOk(s, s.iters[i])
  }

  ghost predicate SnapsOk(s: State) {
    forall sn :: sn in s.snaps ==> SnapOk(s, s.snaps[sn])
  }

  /** A write guard excludes every other guard. */
  ghost predicate WritersAlone(s: State) {
    forall t, u :: t in s.calls && u in s.calls && t != u && HoldsWrite(s.calls[t]) ==>
      !HoldsWrite(s.calls[u]) && !HoldsRead(s.calls[u])
  }

  ghost predicate Inv(s: State) {
    CallsOk(s) && ItersOk(s) && SnapsOk(s) && WritersAlone(s) && s.leases == LeaseCount(s)
  }

  lemma GoKeepsWritersAlone(s: State, t: Id, newId: Id)
    requires WritersAlone(s) && !CallOf(s, t).Idle? && !Blocked(s, t)
    ensures WritersAlone(Step(s, t, newId))
  {
    var c, c' := CallOf(s, t), NextCall(s, CallOf(s, t));
    GuardsComeFromWaiting(s, c);
    hide HoldsRead, HoldsWrite, NextCall, BuiltIter;
  }

  /** A guard is only gained by a step that waits for it. */
  lemma GuardsComeFromWaiting(s: State, c: Call)
    ensures HoldsRead(NextCall(s, c)) ==> HoldsRead(c) || c.WantRead?
    ensures HoldsWrite(NextCall(s, c)) ==> HoldsWrite(c) || c.WantWrite? || c.WantClose?
  {
  }

  lemma NextCallFacts(s: State, c: Call)
    requires CallOk(s, c)
    ensures NeedsOpen(NextCall(s, c)) ==> s.open
    ensures SnapOf(NextCall(s, c)) == None || SnapOf(NextCall(s, c)) == SnapOf(c)
    ensures IterOf(NextCall(s, c)) == None || IterOf(NextCall(s, c)) == IterOf(c)
    ensures NextCall(s, c).CountedZero? ==> s.leases == 0 && c.Closing?
    ensures c.CountedZero? ==> NextCall(s, c) == Dropped
    ensures BuiltIter(c).Some? ==> IterOk(s, BuiltIter(c).value)
  {
  }

  lemma GoKeepsOk(s: State, t: Id, newId: Id)
    requires Inv(s) && !CallOf(s, t).Idle? && newId !in s.iters && newId !in s.snaps
    ensures var s' := Step(s, t, newId); CallsOk(s') && ItersOk(s') && SnapsOk(s')
  {
    var c, s' := CallOf(s, t), Step(s, t, newId);
    assert t in s.calls && CallOk(s, c);
    NextCallFacts(s, c);
    if c.CountedZero? {
      ClosingDropsNothing(s, t);
    } else if c.IterNative? || c.SnapNative? {
      assert HoldsRead(c);
      forall u | u in s.calls ensures !s.calls[u].CountedZero? {
        assert HoldsWrite(s.calls[u]) ==> u == t;
      }
    }
    hide Holders, HoldsRead, NextCall, BuiltIter, SnapOf, IterOf, LeaseCount;
  }

  /** Under the write guard with a zero count, nothing native is alive. */
  lemma ClosingDropsNothing(s: State, t: Id)
    requires Inv(s) && t in s.calls && s.calls[t].CountedZero?
    ensures forall u :: u in s.calls && u != t ==> !NeedsOpen(s.calls[u])
    ensures forall i :: i in s.iters ==> !s.iters[i].part.Whole?
    ensures forall sn :: sn in s.snaps ==> !s.snaps[sn].part.Whole?
  {
    assert CallOk(s, s.calls[t]);
    ZeroMeansNoHolders(s);
    forall u | u in s.calls && u != t ensures !NeedsOpen(s.calls[u]) {
      assert HoldsWrite(s.calls[t]);
      assert !HoldsWrite(s.calls[u]) && !HoldsRead(s.calls[u]);
    }
    forall i | i in s.iters ensures !s.iters[i].part.Whole? {
      assert IterOk(s, s.iters[i]);
    }
  }

  lemma ZeroMeansNoHolders(s: State)
    requires LeaseCount(s) == 0
    ensures forall t :: t in s.calls ==> !CallLeases(s.calls[t])
    ensures forall i :: i in s.iters ==> !IterLeases(s.iters[i])
    ensures forall sn :: sn in s.snaps ==> !SnapLeases(s.snaps[sn])
  {
    assert Holders(s.calls, CallLeases) == {};
    assert Holders(s.iters, IterLeases) == {} && Holders(s.snaps, SnapLeases) == {};
    forall t | t in s.calls ensures !CallLeases(s.calls[t]) {
      assert t !in Holders(s.calls, CallLeases);
    }
    forall i | i in s.iters ensures !IterLeases(s.iters[i]) {
      assert i !in Holders(s.iters, IterLeases);
    }
    forall sn | sn in s.snaps ensures !SnapLeases(s.snaps[sn]) {
      assert sn !in Holders(s.snaps, SnapLeases);
    }
  }

  lemma DropIterKeepsOk(s: State, i: Id)
    requires Inv(s) && Enabled(s, DropIter(i))
    ensures var s' := Apply(s, DropIter(i)); CallsOk(s') && ItersOk(s') && SnapsOk(s')
  {
    var s' := Apply(s, DropIter(i));
    hide Holders, HoldsRead, SnapOf, LeaseCount, NeedsOpen;
    LeasesCoverHolders(s);
    forall t | t in s'.calls ensures CallOk(s', s'.calls[t]) {
      assert CallOk(s, s.calls[t]);
    }
  }

  lemma DropSnapKeepsOk(s: State, sn: Id)
    requires Inv(s) && Enabled(s, DropSnap(sn))
    ensures var s' := Apply(s, DropSnap(sn)); CallsOk(s') && ItersOk(s') && SnapsOk(s')
  {
    var s' := Apply(s, DropSnap(sn));
    hide Holders, HoldsRead, SnapOf, IterOf, LeaseCount, NeedsOpen;
    LeasesCoverHolders(s);
    forall t | t in s'.calls ensures CallOk(s', s'.calls[t]) {
      assert CallOk(s, s.calls[t]);
    }
    forall i | i in s'.iters ensures IterOk(s', s'.iters[i]) {
      assert IterOk(s, s.iters[i]);
    }
  }

  ghost predicate SomethingLeases(s: State) {
    || (exists t :: t in s.calls && CallLeases(s.calls[t]))
    || (exists i :: i in s.iters && IterLeases(s.iters[i]))
    || (exists sn :: sn in s.snaps && SnapLeases(s.snaps[sn]))
  }

  /** The counter is positive while anything holds a lease, so it never underflows. */
  lemma LeasesCoverHolders(s: State)
    requires s.leases == LeaseCount(s)
    ensures s.leases >= 0
    ensures SomethingLeases(s) <==> s.leases > 0
  {
    if s.leases == 0 {
      ZeroMeansNoHolders(s);
    } else if Holders(s.calls, CallLeases) != {} {
      var t :| t in Holders(s.calls, CallLeases);
    } else if Holders(s.iters, IterLeases) != {} {
      var i :| i in Holders(s.iters, IterLeases);
    } else {
      assert Holders(s.snaps, SnapLeases) != {};
      var sn :| sn in Holders(s.snaps, SnapLeases);
    }
  }

  lemma DropHandleKeepsOk(s: State)
    requires Inv(s) && Enabled(s, DropHandle)
    ensures var s' := Apply(s, DropHandle); CallsOk(s') && ItersOk(s') && SnapsOk(s')
  {
    var s' := Apply(s, DropHandle);
    hide Holders, LeaseCount;
    forall t | t in s'.calls ensures CallOk(s', s'.calls[t]) {
      assert CallOk(s, s.calls[t]) && !HoldsHandle(s.calls[t]);
    }
    forall i | i in s'.iters ensures IterOk(s', s'.iters[i]) {
      assert IterOk(s, s.iters[i]) && !IterHoldsHandle(s.iters[i]);
    }
  }

  lemma StepKeepsInv(s: State, a: Action)
    requires Inv(s) && Enabled(s, a)
    ensures Inv(Apply(s, a))
  {
    StepConservesLeases(s, a);
    hide Holders, LeaseCount, Blocked, Step, IterUnreferenced, SnapUnreferenced, HandleUnreferenced,
      HoldsRead, SnapOf, IterOf, CanBegin;
    match a
    case Begin(t, c) => BeginKeepsOk(s, t, c);
    case Go(t, newId) =>
      GoKeepsOk(s, t, newId);
      GoKeepsWritersAlone(s, t, newId);
    case FindNoCf(t) => NoCfKeepsOk(s, t);
    case ForgetHandle =>
    case ForgetIter(i) =>
    case ForgetSnap(sn) =>
    case DropIter(i) => DropIterKeepsOk(s, i);
    case DropSnap(sn) => DropSnapKeepsOk(s, sn);
    case DropHandle => DropHandleKeepsOk(s);
  }

  lemma BeginKeepsOk(s: State, t: Id, c: Call)
    requires Inv(s) && Enabled(s, Begin(t, c))
    ensures var s' := AtCall(s, t, c); CallsOk(s') && WritersAlone(s') && ItersOk(s') && SnapsOk(s')
  {
    var s' := AtCall(s, t, c);
    CallsBeginWaiting(s, c);
    assert IterOf(c).Some? ==> IterOk(s, s.iters[IterOf(c).value]);
    assert SnapOf(c).Some? ==> SnapOk(s, s.snaps[SnapOf(c).value]);
    assert CallOk(s', c) && !HoldsRead(c) && !HoldsWrite(c);
    hide Holders, LeaseCount, CanBegin, SnapOf, IterOf, NeedsOpen, HoldsRead, HoldsWrite;
    forall u | u in s'.calls && u != t ensures CallOk(s', s'.calls[u]) {
      assert CallOk(s, s.calls[u]);
    }
  }

  lemma NoCfKeepsOk(s: State, t: Id)
    requires Inv(s) && Enabled(s, FindNoCf(t))
    ensures var s' := Apply(s, FindNoCf(t)); CallsOk(s') && WritersAlone(s') && ItersOk(s') && SnapsOk(s')
  {
    hide Holders, LeaseCount;
  }

  lemma {:induction false} RunKeepsInv(s: State, run: seq<Action>)
    requires Inv(s) && CanRun(s, run)
    ensures Inv(Run(s, run))
    decreases |run|
  {
    hide Inv, Enabled, Apply;
    if run != [] {
      StepKeepsInv(s, run[0]);
      RunKeepsInv(Apply(s, run[0]), run[1..]);
    }
  }

  lemma FreshIsInv()
    ensures Inv(FRESH)
  {
    assert Holders(FRESH.calls, CallLeases) == {};
    assert Holders(FRESH.iters, IterLeases) == {};
    assert Holders(FRESH.snaps, SnapLeases) == {};
  }

  // ---------- safety ----------

  /**
  In every reachable state, whoever uses or holds something native finds the
  database present: neither `close` nor the last owner's release removes it
  underneath a child. A snapshot iterator finds its snapshot whole, also when it
  outlives the snapshot's term.
  */
  lemma NothingDangles(run: seq<Action>)
    requires CanRun(FRESH, run)
    ensures var s := Run(FRESH, run);
            && (forall t :: t in s.calls && UsesNative(s.calls[t]) ==> s.open)
            && (forall i :: i in s.iters && s.iters[i].part.Whole? ==> s.open)
            && (forall sn :: sn in s.snaps && s.snaps[sn].part.Whole? ==> s.open)
            && (forall i :: i in s.iters && s.iters[i].part.Whole? && s.iters[i].snap.Some? ==>
                  SnapWhole(s, s.iters[i].snap.value))
            && s.leases == LeaseCount(s) && (SomethingLeases(s) <==> s.leases > 0)
  {
    FreshIsInv();
    RunKeepsInv(FRESH, run);
    var s := Run(FRESH, run);
    LeasesCoverHolders(s);
    hide LeaseCount, Run, CanRun;
    forall i | i in s.iters && s.iters[i].part.Whole? ensures s.open {
      assert IterOk(s, s.iters[i]);
      if s.iters[i].snap.Some? {
        assert SnapOk(s, s.snaps[s.iters[i].snap.value]);
      }
    }
    forall t | t in s.calls && UsesNative(s.calls[t]) ensures s.open {
      UseNeedsOpen(s, s.calls[t]);
    }
  }

  lemma UseNeedsOpen(s: State, c: Call)
    requires Inv(s) && CallOk(s, c) && UsesNative(c)
    ensures s.open
  {
    if SnapOf(c).Some? {
      assert SnapOk(s, s.snaps[SnapOf(c).value]);
    } else if IterOf(c).Some? {
      var r := s.iters[IterOf(c).value];
      assert IterOk(s, r);
      if r.snap.Some? {
        assert SnapOk(s, s.snaps[r.snap.value]);
      }
    }
  }

  // ---------- close ----------

  /** `close` reports busy exactly when something holds a lease, and goes on to drop exactly when nothing does. */
  lemma CloseIsBusyIffLeased(s: State, t: Id)
    requires Inv(s) && t in s.calls && s.calls[t] == Closing && s.open
    ensures NextCall(s, Closing) == Idle(Some(BusyError)) <==> SomethingLeases(s)
    ensures NextCall(s, Closing) == CountedZero <==> !SomethingLeases(s)
  {
    LeasesCoverHolders(s);
  }

  lemma {:induction false} ClosedForever(s: State, run: seq<Action>)
    requires !s.open && CanRun(s, run)
    ensures !Run(s, run).open
    decreases |run|
  {
    if run != [] {
      ClosedForever(Apply(s, run[0]), run[1..]);
    }
  }

  ghost predicate BeginsNothing(run: seq<Action>, t: Id) {
    forall i :: 0 <= i < |run| ==> !(run[i].Begin? && run[i].thread == t)
  }

  /** Where a call may stand that found the database gone, until its thread begins another. */
  predicate AnswersClosed(asked: Call, now: Call) {
    match asked
    case WantRead(_) => now == asked || now == Idle(Some(ClosedError))
    case WantWrite => now == asked || now == Idle(Some(ClosedError))
    case WantClose => now == WantClose || now == Closing || now == Idle(Some(Done))
    case _ => true
  }

  lemma {:induction false} OnlyClosedAnswers(s: State, run: seq<Action>, t: Id, asked: Call)
    requires !s.open && CanRun(s, run) && BeginsNothing(run, t) && AnswersClosed(asked, CallOf(s, t))
    ensures AnswersClosed(asked, CallOf(Run(s, run), t))
    decreases |run|
  {
    if run != [] {
      var next := Apply(s, run[0]);
      assert AnswersClosed(asked, CallOf(next, t)) by {
        ClosedStep(s, run[0], t, asked);
      }
      hide Enabled, Apply, AnswersClosed;
      ClosedForever(s, [run[0]]);
      RunOne(s, run[0]);
      assert BeginsNothing(run[1..], t);
      OnlyClosedAnswers(next, run[1..], t, asked);
    }
  }

  lemma ClosedStep(s: State, a: Action, t: Id, asked: Call)
    requires !s.open && Enabled(s, a) && !(a.Begin? && a.thread == t) && AnswersClosed(asked, CallOf(s, t))
    ensures AnswersClosed(asked, CallOf(Apply(s, a), t))
  {
  }

  /** An iterator or snapshot call is given something that keeps the database open. */
  lemma ChildCallsNeedOpen(s: State, c: Call)
    requires Inv(s) && CanBegin(s, c) && !c.WantRead? && !c.WantWrite? && !c.WantClose?
    ensures s.open
  {
    if SnapOf(c).Some? {
      assert SnapOk(s, s.snaps[SnapOf(c).value]);
    } else if IterOf(c).Some? {
      var r := s.iters[IterOf(c).value];
      assert IterOk(s, r);
      if r.snap.Some? {
        assert SnapOk(s, s.snaps[r.snap.value]);
      }
    }
  }

  /**
  A call that begins after the database has gone, however much later, never gets
  past its guard: whatever else happens, it waits or has answered `closed`, and a
  repeated `close` waits or has answered ok. Nothing native is used meanwhile.
  */
  lemma ClosedAnswers(s: State, before: seq<Action>, t: Id, c: Call, after: seq<Action>)
    requires !s.open && CanRun(s, before) && Enabled(Run(s, before), Begin(t, c))
    requires CanRun(AtCall(Run(s, before), t, c), after) && BeginsNothing(after, t)
    ensures AnswersClosed(c, CallOf(Run(AtCall(Run(s, before), t, c), after), t))
    ensures Inv(s) ==> c.WantRead? || c.WantWrite? || c.WantClose?
    ensures Inv(s) ==> forall u :: u in Run(s, before).calls ==> !UsesNative(Run(s, before).calls[u])
  {
    ClosedForever(s, before);
    var now := Run(s, before);
    OnlyClosedAnswers(AtCall(now, t, c), after, t, c);
    if Inv(s) {
      RunKeepsInv(s, before);
      if !c.WantRead? && !c.WantWrite? && !c.WantClose? {
        ChildCallsNeedOpen(now, c);
      }
      forall u | u in now.calls ensures !UsesNative(now.calls[u]) {
        if UsesNative(now.calls[u]) {
          UseNeedsOpen(now, now.calls[u]);
        }
      }
    }
  }

  /** A call on a live snapshot never finds the database closed. */
  lemma SnapshotCallsFindItOpen(s: State, t: Id)
    requires Inv(s) && t in s.calls && SnapOf(s.calls[t]).Some?
    ensures s.open
  {
    assert CallOk(s, s.calls[t]);
    assert SnapOk(s, s.snaps[SnapOf(s.calls[t]).value]);
  }

  /** A fresh handle on which one thread creates a child while another closes. */
  function Race(job: Job): State {
    FRESH.(calls := map[1 := WantRead(job), 2 := WantClose])
  }

  predicate Creates(job: Job) {
    job.MakeIter? || job.MakeSnap?
  }

  /** Where the creating thread may stand; a snapshot is unguarded before its resource is built. */
  predicate Creating(job: Job, c: Call) {
    || c == WantRead(job) || c == Guarded(job) || c == Idle(Some(Created)) || c == Idle(Some(ClosedError))
    || (job.MakeIter? && (c.IterNative? || c.IterLeased? || c.IterBuilt?))
    || (job.MakeSnap? && (c.SnapNative? || c.SnapLeased? || c.SnapUnguarded?))
  }

  predicate ChildLeases(c: Call) {
    CallLeases(c) || c.IterBuilt? || c == Idle(Some(Created))
  }

  ghost predicate RaceInv(s: State, job: Job) {
    && s.calls.Keys == {1, 2}
    && var child, close := s.calls[1], s.calls[2];
    && Creating(job, child)
    && (close in {WantClose, Closing, CountedZero, Dropped, Idle(Some(Done)), Idle(Some(BusyError))})
    && (s.open <==> close != Dropped && close != Idle(Some(Done)))
    && s.leases == (if ChildLeases(child) then 1 else 0)
    && (HoldsRead(child) ==> close == WantClose)
    && (close in {CountedZero, Dropped} ==> child == WantRead(job))
    && (close == Closing ==> child in {WantRead(job), SnapUnguarded, Idle(Some(Created))})
    && (close == Idle(Some(Done)) ==> child in {WantRead(job), Idle(Some(ClosedError))})
    && (close == Idle(Some(BusyError)) ==> child in {SnapUnguarded, Idle(Some(Created))})
    && (child == Idle(Some(ClosedError)) ==> close == Idle(Some(Done)))
  }

  lemma RaceStep(s: State, job: Job, t: Id, newId: Id)
    requires Creates(job) && RaceInv(s, job) && (t == 1 || t == 2) && Enabled(s, Go(t, newId))
    ensures RaceInv(Step(s, t, newId), job)
  {
    assert s.calls[1] == CallOf(s, 1) && s.calls[2] == CallOf(s, 2);
    assert s.calls[t := NextCall(s, CallOf(s, t))].Keys == {1, 2};
  }

  /** Only the two racing threads move; the child's term is kept. */
  ghost predicate RaceRun(run: seq<Action>) {
    forall i :: 0 <= i < |run| ==> run[i].Go? && (run[i].thread == 1 || run[i].thread == 2)
  }

  lemma {:induction false} RaceKeepsInv(s: State, job: Job, run: seq<Action>)
    requires Creates(job) && RaceInv(s, job) && RaceRun(run) && CanRun(s, run)
    ensures RaceInv(Run(s, run), job)
    decreases |run|
  {
    hide RaceInv, Step, Enabled;
    if run != [] {
      RaceStep(s, job, run[0].thread, run[0].newId);
      assert RaceRun(run[1..]);
      RaceKeepsInv(Step(s, run[0].thread, run[0].newId), job, run[1..]);
    }
  }

  /** Creating an iterator or a snapshot while closing a fresh handle: created and busy, or closed and ok. */
  lemma RaceOutcomes(job: Job, run: seq<Action>)
    requires Creates(job) && RaceRun(run) && CanRun(Race(job), run)
    ensures var s := Run(Race(job), run);
            CallOf(s, 1).Idle? && CallOf(s, 2).Idle? ==>
              (CallOf(s, 1).last, CallOf(s, 2).last)
                in {(Some(Created), Some(BusyError)), (Some(ClosedError), Some(Done))}
  {
    assert RaceInv(Race(job), job);
    RaceKeepsInv(Race(job), job, run);
  }

  // ---------- what each call answers and builds ----------

  /** Where a call may stand: these are all the answers it can have, whatever else runs. */
  predicate MayStand(asked: Call, now: Call) {
    || now == asked
    || match asked
       case WantRead(Query) =>
         now == Guarded(Query) || now in {Idle(Some(Done)), Idle(Some(ClosedError)), Idle(Some(UnknownCf))}
       case WantRead(MakeIter) =>
         || now == Guarded(MakeIter) || now.IterNative? || now.IterLeased? || now.IterBuilt?
         || now in {Idle(Some(Created)), Idle(Some(ClosedError)), Idle(Some(UnknownCf))}
       case WantRead(MakeSnap) =>
         || now == Guarded(MakeSnap) || now.SnapNative? || now.SnapLeased? || now.SnapUnguarded?
         || now in {Idle(Some(Created)), Idle(Some(ClosedError)), Idle(Some(UnknownCf))}
       case WantRead(SnapQueryCf(sn)) =>
         || now in {Guarded(SnapQueryCf(sn)), WantMutex(sn, true, false)}
         || now in {Locked(sn, true, false), Leaving(sn, true, Done)}
         || now in {Idle(Some(Done)), Idle(Some(ClosedError)), Idle(Some(UnknownCf))}
       case WantRead(SnapIterCf(sn)) =>
         || now in {Guarded(SnapIterCf(sn)), WantMutex(sn, true, true), Locked(sn, true, true)}
         || now in {SnapIterNative(sn, true), SnapIterBuilt(sn, true), Leaving(sn, true, Created)}
         || now in {Idle(Some(Created)), Idle(Some(ClosedError)), Idle(Some(UnknownCf))}
       case WantMutex(sn, guarded, false) =>
         now in {Locked(sn, guarded, false), Leaving(sn, guarded, Done), Idle(Some(Done))}
       case WantMutex(sn, guarded, true) =>
         || now in {Locked(sn, guarded, true), SnapIterNative(sn, guarded), SnapIterBuilt(sn, guarded)}
         || now in {Leaving(sn, guarded, Created), Idle(Some(Created))}
       case WantIter(i) => now in {InIter(i), Idle(Some(Done))}
       case WantWrite => now in {Writing, Idle(Some(Done)), Idle(Some(ClosedError))}
       case WantClose => now in {Closing, CountedZero, Dropped, Idle(Some(Done)), Idle(Some(BusyError))}
       case _ => false
  }

  lemma StepMayStand(s: State, a: Action, t: Id, asked: Call)
    requires Enabled(s, a) && !(a.Begin? && a.thread == t) && Waiting(asked) && MayStand(asked, CallOf(s, t))
    ensures MayStand(asked, CallOf(Apply(s, a), t))
  {
    hide Blocked, CanBegin, IterUnreferenced, SnapUnreferenced, HandleUnreferenced, NextIterPart, NextSnapPart;
  }

  /** In every interleaving a call gives one of its own answers. */
  lemma {:induction false} CallsGiveTheirAnswers(s: State, t: Id, asked: Call, run: seq<Action>)
    requires Waiting(asked) && MayStand(asked, CallOf(s, t)) && CanRun(s, run) && BeginsNothing(run, t)
    ensures MayStand(asked, CallOf(Run(s, run), t))
    decreases |run|
  {
    if run != [] {
      StepMayStand(s, run[0], t, asked);
      hide MayStand, Enabled, Apply;
      assert BeginsNothing(run[1..], t);
      CallsGiveTheirAnswers(Apply(s, run[0]), t, asked, run[1..]);
    }
  }

  /** One more iterator, held by its term and whole. */
  ghost predicate OneMoreIter(before: State, now: State, snap: Option<Id>) {
    exists i: Id :: i !in before.iters && now.iters == before.iters[i := Iter(true, snap, Whole)]
  }

  ghost predicate OneMoreSnap(before: State, now: State) {
    exists i: Id :: i !in before.snaps && now.snaps == before.snaps[i := Snap(true, Whole)]
  }

  predicate HasSnapIter(c: Call) {
    c.SnapIterBuilt? || (c.Leaving? && c.reply == Created) || c == Idle(Some(Created))
  }

  /** What a call has built and leased by the time it stands at `now`. */
  ghost predicate HasBuilt(before: State, asked: Call, now: State, t: Id) {
    var c := CallOf(now, t);
    && now.open && now.handle == before.handle
    && (c.Idle? ==> c.last.Some? && c.last != Some(ClosedError) && c.last != Some(UnknownCf))
    && (if asked == WantRead(MakeIter) && (c.IterBuilt? || c.Idle?) then OneMoreIter(before, now, None)
        else if SnapOf(asked).Some? && HasSnapIter(c) then OneMoreIter(before, now, SnapOf(asked))
        else now.iters == before.iters)
    && (if asked == WantRead(MakeSnap) && c.Idle? then OneMoreSnap(before, now) else now.snaps == before.snaps)
    && now.leases == before.leases
                     + if c.IterLeased? || c.IterBuilt? || c.SnapLeased? || c.SnapUnguarded?
                          || (c.Idle? && asked in {WantRead(MakeIter), WantRead(MakeSnap)}) then 1 else 0
  }

  /** The thread's own steps. */
  ghost predicate OwnSteps(run: seq<Action>, t: Id) {
    forall i :: 0 <= i < |run| ==> run[i].Go? && run[i].thread == t
  }

  lemma OwnStepBuilds(before: State, asked: Call, s: State, t: Id, newId: Id)
    requires Waiting(asked) && !asked.WantClose? && Enabled(s, Go(t, newId))
    requires MayStand(asked, CallOf(s, t)) && HasBuilt(before, asked, s, t)
    ensures HasBuilt(before, asked, Step(s, t, newId), t)
  {
  }

  lemma {:induction false} OwnStepsBuild(before: State, asked: Call, s: State, t: Id, run: seq<Action>)
    requires Waiting(asked) && !asked.WantClose? && CanRun(s, run) && OwnSteps(run, t)
    requires MayStand(asked, CallOf(s, t)) && HasBuilt(before, asked, s, t)
    ensures MayStand(asked, CallOf(Run(s, run), t)) && HasBuilt(before, asked, Run(s, run), t)
    decreases |run|
  {
    if run != [] {
      OwnStepBuilds(before, asked, s, t, run[0].newId);
      StepMayStand(s, run[0], t, asked);
      hide MayStand, Enabled, HasBuilt, Step;
      assert OwnSteps(run[1..], t);
      OwnStepsBuild(before, asked, Apply(s, run[0]), t, run[1..]);
    }
  }

  /**
  A call that runs by itself on an open database, to its end: snapshot iterators
  leave one more iterator that holds its snapshot and no lease; iterators and
  snapshots leave one more that holds a lease; everything else leaves all as it was.
  */
  lemma CallsDoTheirWork(s: State, t: Id, asked: Call, run: seq<Action>)
    requires s.open && Enabled(s, Begin(t, asked)) && !asked.WantClose?
    requires CanRun(AtCall(s, t, asked), run) && OwnSteps(run, t)
    requires CallOf(Run(AtCall(s, t, asked), run), t).Idle?
    ensures var now := Run(AtCall(s, t, asked), run);
            var reply := CallOf(now, t).last;
            && now.open
            && match asked
               case WantRead(MakeIter) =>
                 && reply == Some(Created) && OneMoreIter(s, now, None)
                 && now.snaps == s.snaps && now.leases == s.leases + 1
               case WantRead(MakeSnap) =>
                 && reply == Some(Created) && OneMoreSnap(s, now)
                 && now.iters == s.iters && now.leases == s.leases + 1
               case WantRead(SnapIterCf(sn)) =>
                 && reply == Some(Created) && OneMoreIter(s, now, Some(sn))
                 && now.snaps == s.snaps && now.leases == s.leases
               case WantMutex(sn, _, true) =>
                 && reply == Some(Created) && OneMoreIter(s, now, Some(sn))
                 && now.snaps == s.snaps && now.leases == s.leases
               case _ =>
                 reply == Some(Done) && now.iters == s.iters && now.snaps == s.snaps && now.leases == s.leases
  {
    CallsBeginWaiting(s, asked);
    OwnStepsBuild(s, asked, AtCall(s, t, asked), t, run);
    hide Run, CanRun, CanBegin, Blocked, OwnSteps;
  }

  // ---------- when a step may be taken ----------

  /** Whoever holds a term may begin any of its calls on an idle thread, and nobody else may. */
  lemma CallsBeginIffTermHeld(s: State, t: Id, sn: Id, i: Id)
    requires CallOf(s, t).Idle?
    ensures forall c :: c in {WantRead(Query), WantRead(MakeIter), WantRead(MakeSnap), WantWrite, WantClose} ==>
              (Enabled(s, Begin(t, c)) <==> s.handle)
    ensures forall c :: c in {WantRead(SnapQueryCf(sn)), WantRead(SnapIterCf(sn)),
                              WantMutex(sn, false, false), WantMutex(sn, false, true)} ==>
              (Enabled(s, Begin(t, c)) <==> sn in s.snaps && s.snaps[sn].held)
    ensures Enabled(s, Begin(t, WantIter(i))) <==> i in s.iters && s.iters[i].held
  {
  }

  ghost predicate AnotherHolds(s: State, t: Id, holds: Call -> bool) {
    exists u :: u in s.calls && u != t && holds(s.calls[u])
  }

  /** Only a lock in the hands of another thread delays a call: readers share the database, and nothing else waits. */
  lemma CallsGoIffLockIsFree(s: State, t: Id, newId: Id)
    requires !CallOf(s, t).Idle? && newId !in s.iters && newId !in s.snaps
    ensures Enabled(s, Go(t, newId)) <==>
              match CallOf(s, t)
              case WantRead(_) => !AnotherHolds(s, t, HoldsWrite)
              case WantWrite => !AnotherHolds(s, t, HoldsWrite) && !AnotherHolds(s, t, HoldsRead)
              case WantClose => !AnotherHolds(s, t, HoldsWrite) && !AnotherHolds(s, t, HoldsRead)
              case WantMutex(sn, _, _) => !AnotherHolds(s, t, c => HoldsMutex(c, sn))
              case WantIter(i) => !AnotherHolds(s, t, c => c == InIter(i))
              case _ => true
  {
  }

  // ---------- mutexes ----------

  /** A mutex excludes: no two calls are inside one iterator, or use one snapshot, at a time. */
  ghost predicate MutexesExclude(s: State) {
    forall t, u :: t in s.calls && u in s.calls && t != u ==>
      && (s.calls[t].InIter? ==> s.calls[t] != s.calls[u])
      && (forall sn :: HoldsMutex(s.calls[t], sn) ==> !HoldsMutex(s.calls[u], sn))
  }

  /** A mutex is only gained by a step that waits for it. */
  lemma MutexesComeFromWaiting(s: State, c: Call)
    ensures forall sn :: HoldsMutex(NextCall(s, c), sn) ==> HoldsMutex(c, sn) || (c.WantMutex? && c.snap == sn)
    ensures NextCall(s, c).InIter? ==> c == WantIter(NextCall(s, c).iter)
  {
  }

  lemma GoKeepsMutexes(s: State, t: Id, newId: Id)
    requires MutexesExclude(s) && Enabled(s, Go(t, newId))
    ensures MutexesExclude(Step(s, t, newId))
  {
    var c := CallOf(s, t);
    MutexesComeFromWaiting(s, c);
    hide NextCall, HoldsMutex, BuiltIter;
  }

  lemma UnlockedCallKeepsMutexes(s: State, t: Id, c: Call)
    requires MutexesExclude(s) && !c.InIter? && forall sn :: !HoldsMutex(c, sn)
    ensures MutexesExclude(AtCall(s, t, c))
  {
    hide HoldsMutex;
  }

  lemma StepKeepsMutexes(s: State, a: Action)
    requires MutexesExclude(s) && Enabled(s, a)
    ensures MutexesExclude(Apply(s, a))
  {
    hide Blocked, CanBegin, Step, IterUnreferenced, SnapUnreferenced, HandleUnreferenced, NextIterPart, NextSnapPart;
    match a
    case Go(t, newId) => GoKeepsMutexes(s, t, newId);
    case Begin(t, c) =>
      CallsBeginWaiting(s, c);
      UnlockedCallKeepsMutexes(s, t, c);
    case FindNoCf(t) => UnlockedCallKeepsMutexes(s, t, Idle(Some(UnknownCf)));
    case _ => hide HoldsMutex;
  }

  lemma {:induction false} MutexesAlwaysExclude(s: State, run: seq<Action>)
    requires MutexesExclude(s) && CanRun(s, run)
    ensures MutexesExclude(Run(s, run))
    decreases |run|
  {
    hide MutexesExclude, Enabled, Apply;
    if run != [] {
      StepKeepsMutexes(s, run[0]);
      MutexesAlwaysExclude(Apply(s, run[0]), run[1..]);
    }
  }

  /** In every reachable state the locks do what locks do: the write guard and the mutexes exclude. */
  lemma LocksExclude(run: seq<Action>)
    requires CanRun(FRESH, run)
    ensures WritersAlone(Run(FRESH, run)) && MutexesExclude(Run(FRESH, run))
  {
    FreshIsInv();
    RunKeepsInv(FRESH, run);
    MutexesAlwaysExclude(FRESH, run);
  }

  // ---------- progress ----------

  predicate WaitsToWrite(c: Call) {
    c.WantWrite? || c.WantClose?
  }

  /** A reader may also have to stand behind a writer that waits. */
  ghost predicate CanGo(s: State, t: Id) {
    && t in s.calls && !s.calls[t].Idle? && !Blocked(s, t)
    && (s.calls[t].WantRead? ==> forall u :: u in s.calls ==> !WaitsToWrite(s.calls[u]))
  }

  predicate NeverBlocks(c: Call) {
    !c.Idle? && !c.WantRead? && !c.WantWrite? && !c.WantClose? && !c.WantMutex? && !c.WantIter?
  }

  /** While any call is in flight, some thread can step, even if waiting writers go before readers. */
  lemma DeadlockFree(s: State, t: Id)
    requires t in s.calls && !s.calls[t].Idle?
    ensures exists u :: CanGo(s, u)
  {
    if u :| u in s.calls && NeverBlocks(s.calls[u]) {
      assert CanGo(s, u);
    } else if u :| u in s.calls && (s.calls[u].WantMutex? || s.calls[u].WantIter?) {
      assert CanGo(s, u);
    } else if u :| u in s.calls && WaitsToWrite(s.calls[u]) {
      assert CanGo(s, u);
    } else {
      assert CanGo(s, t);
    }
  }

  /** The most steps a call still takes by itself. */
  function StepsLeft(c: Call): nat {
    match c
    case Idle(_) => 0
    case WantRead(_) => 8
    case Guarded(_) => 7
    case IterNative => 3
    case IterLeased => 2
    case IterBuilt => 1
    case SnapNative => 3
    case SnapLeased => 2
    case SnapUnguarded => 1
    case WantMutex(_, _, _) => 5
    case Locked(_, _, _) => 4
    case SnapIterNative(_, _) => 3
    case SnapIterBuilt(_, _) => 2
    case Leaving(_, _, _) => 1
    case WantIter(_) => 2
    case InIter(_) => 1
    case WantWrite => 2
    case Writing => 1
    case WantClose => 4
    case Closing => 3
    case CountedZero => 2
    case Dropped => 1
  }

  lemma EveryStepShortensTheCall(s: State, c: Call)
    requires !c.Idle?
    ensures StepsLeft(NextCall(s, c)) < StepsLeft(c)
  {
  }

  /** With no other call in flight, a call comes to its end by its own steps. */
  lemma {:induction false} AloneACallFinishes(s: State, t: Id) returns (run: seq<Action>)
    requires forall u :: u in s.calls && u != t ==> s.calls[u].Idle?
    ensures CanRun(s, run) && OwnSteps(run, t) && CallOf(Run(s, run), t).Idle?
    decreases StepsLeft(CallOf(s, t))
  {
    run := [];
    if !CallOf(s, t).Idle? {
      var newId := UnusedId(s.iters.Keys + s.snaps.Keys);
      assert newId !in s.iters && newId !in s.snaps;
      EveryStepShortensTheCall(s, CallOf(s, t));
      assert Enabled(s, Go(t, newId));
      hide StepsLeft, NextCall, Blocked;
      var rest := AloneACallFinishes(Step(s, t, newId), t);
      run := [Go(t, newId)] + rest;
      assert run[1..] == rest;
    }
  }

  function PartsLeft(p: Part): nat {
    match p
    case Whole => 5
    case NoNative => 4
    case NoOwner => 3
    case NoSnapshot => 2
    case NoLease => 1
    case Gone => 0
  }

  /** What must still happen to the resources before nothing is left of them. */
  ghost function Remains(s: State): set<(bool, Id, nat)> {
    (set i: Id, k: nat | i in s.iters && k < PartsLeft(s.iters[i].part) + (if s.iters[i].held then 1 else 0)
       :: (true, i, k))
    + (set sn: Id, k: nat | sn in s.snaps && k < PartsLeft(s.snaps[sn].part) + (if s.snaps[sn].held then 1 else 0)
         :: (false, sn, k))
  }

  predicate AllIdle(s: State) {
    forall t :: t in s.calls ==> s.calls[t].Idle?
  }

  predicate NothingRemains(s: State) {
    (forall i :: i in s.iters ==> s.iters[i].part.Gone?) && (forall sn :: sn in s.snaps ==> s.snaps[sn].part.Gone?)
  }

  predicate Releases(a: Action) {
    a.ForgetIter? || a.ForgetSnap? || a.DropIter? || a.DropSnap?
  }

  lemma IterStepShrinks(s: State, i: Id)
    requires i in s.iters && (s.iters[i].held || !s.iters[i].part.Gone?)
    requires Enabled(s, if s.iters[i].held then ForgetIter(i) else DropIter(i))
    ensures Remains(Apply(s, if s.iters[i].held then ForgetIter(i) else DropIter(i))) < Remains(s)
  {
    var r := s.iters[i];
    var s' := Apply(s, if r.held then ForgetIter(i) else DropIter(i));
    hide IterUnreferenced, HandleUnreferenced, SnapUnreferenced;
    var left := PartsLeft(s'.iters[i].part) + if s'.iters[i].held then 1 else 0;
    assert left < PartsLeft(r.part) + if r.held then 1 else 0;
    hide PartsLeft, NextIterPart;
    assert (true, i, left) in Remains(s) && (true, i, left) !in Remains(s');
  }

  lemma SnapStepShrinks(s: State, sn: Id)
    requires sn in s.snaps && (s.snaps[sn].held || !s.snaps[sn].part.Gone?)
    requires Enabled(s, if s.snaps[sn].held then ForgetSnap(sn) else DropSnap(sn))
    ensures Remains(Apply(s, if s.snaps[sn].held then ForgetSnap(sn) else DropSnap(sn))) < Remains(s)
  {
    var r := s.snaps[sn];
    var s' := Apply(s, if r.held then ForgetSnap(sn) else DropSnap(sn));
    hide IterUnreferenced, HandleUnreferenced, SnapUnreferenced;
    var left := PartsLeft(s'.snaps[sn].part) + if s'.snaps[sn].held then 1 else 0;
    assert left < PartsLeft(r.part) + if r.held then 1 else 0;
    hide PartsLeft, NextSnapPart;
    assert (false, sn, left) in Remains(s) && (false, sn, left) !in Remains(s');
  }

  /** A resource whose destructor may take its next step, iterators before the snapshots they keep alive. */
  lemma SomethingCanBeReleased(s: State) returns (a: Action)
    requires AllIdle(s) && !NothingRemains(s)
    ensures Releases(a) && Enabled(s, a) && Remains(Apply(s, a)) < Remains(s) && AllIdle(Apply(s, a))
    ensures Apply(s, a).open == s.open
  {
    hide Remains;
    if i :| i in s.iters && (s.iters[i].held || !s.iters[i].part.Gone?) {
      a := if s.iters[i].held then ForgetIter(i) else DropIter(i);
      IterStepShrinks(s, i);
    } else {
      var sn :| sn in s.snaps && !s.snaps[sn].part.Gone?;
      a := if s.snaps[sn].held then ForgetSnap(sn) else DropSnap(sn);
      SnapStepShrinks(s, sn);
    }
  }

  /**
  When no call is in flight, forgetting all terms and running the destructors to
  their ends leaves nothing of any child: the counter is zero and `close` succeeds.
  */
  lemma {:induction false} ChildrenCanBeReleased(s: State) returns (run: seq<Action>)
    requires Inv(s) && AllIdle(s)
    ensures forall i :: 0 <= i < |run| ==> Releases(run[i])
    ensures CanRun(s, run) && NothingRemains(Run(s, run)) && AllIdle(Run(s, run))
    ensures Run(s, run).open == s.open && Run(s, run).leases == 0 && !SomethingLeases(Run(s, run))
    decreases Remains(s)
  {
    hide Enabled, Apply, Remains, Inv;
    run := [];
    if NothingRemains(s) {
      NothingLeases(s);
    } else {
      var a := SomethingCanBeReleased(s);
      StepKeepsInv(s, a);
      var rest := ChildrenCanBeReleased(Apply(s, a));
      run := [a] + rest;
      assert run[1..] == rest;
    }
  }

  /** Then the last reference to the handle may go, and the database with it. */
  lemma HandleCanBeDropped(s: State)
    requires AllIdle(s) && NothingRemains(s) && s.open && s.handle
    ensures CanRun(s, [ForgetHandle, DropHandle]) && !Run(s, [ForgetHandle, DropHandle]).open
  {
    var forgotten := Apply(s, ForgetHandle);
    RunOne(forgotten, DropHandle);
    RunMore(s, ForgetHandle, [DropHandle]);
    assert [ForgetHandle] + [DropHandle] == [ForgetHandle, DropHandle];
  }

  lemma NothingLeases(s: State)
    requires Inv(s) && AllIdle(s) && NothingRemains(s)
    ensures s.leases == 0 && !SomethingLeases(s)
  {
    LeasesCoverHolders(s);
  }

  /** The steps that the calls in flight still have to take. */
  ghost function Todo(s: State): set<(Id, nat)> {
    set t, k: nat | t in s.calls && k < StepsLeft(s.calls[t]) :: (t, k)
  }

  lemma StepShrinksTodo(s: State, t: Id, newId: Id)
    requires t in s.calls && !s.calls[t].Idle?
    ensures Todo(Step(s, t, newId)) < Todo(s)
  {
    var c, c' := s.calls[t], NextCall(s, s.calls[t]);
    EveryStepShortensTheCall(s, c);
    hide StepsLeft, NextCall;
    assert (t, StepsLeft(c')) in Todo(s) && (t, StepsLeft(c')) !in Todo(Step(s, t, newId));
  }

  lemma {:induction false} UnusedId(ids: set<Id>) returns (n: Id)
    ensures forall i :: i in ids ==> i < n
  {
    if ids == {} {
      n := 0;
    } else {
      var i :| i in ids;
      var m := UnusedId(ids - {i});
      n := if i < m then m else i + 1;
      assert forall j :: j in ids ==> j == i || j in ids - {i};
    }
  }

  /** From every state the calls in flight can all be run to their end by their own steps. */
  lemma {:induction false} CallsCanFinish(s: State) returns (run: seq<Action>)
    ensures forall i :: 0 <= i < |run| ==> run[i].Go?
    ensures CanRun(s, run) && forall t :: t in Run(s, run).calls ==> Run(s, run).calls[t].Idle?
    decreases Todo(s)
  {
    if t :| t in s.calls && !s.calls[t].Idle? {
      DeadlockFree(s, t);
      var u :| CanGo(s, u);
      var newId := UnusedId(s.iters.Keys + s.snaps.Keys);
      assert newId !in s.iters && newId !in s.snaps;
      StepShrinksTodo(s, u, newId);
      hide StepsLeft, NextCall, Blocked;
      var rest := CallsCanFinish(Step(s, u, newId));
      run := [Go(u, newId)] + rest;
      assert run[1..] == rest;
    } else {
      run := [];
    }
  }

  // ---------- the shared fields ----------

  /** The step gives up a lease: the field that holds it is being dropped. */
  predicate GivesUpLease(s: State, a: Action) {
    match a
    case DropIter(i) => i in s.iters && IterLeases(s.iters[i]) && s.iters[i].part.NoSnapshot?
    case DropSnap(sn) => sn in s.snaps && SnapLeases(s.snaps[sn]) && s.snaps[sn].part.NoOwner?
    case _ => false
  }

  /** What is left of a `close` that has the write guard. */
  ghost function CloseRun(s: State, t: Id, newId: Id): seq<Action> {
    if s.open && s.leases == 0 then [Go(t, newId), Go(t, newId), Go(t, newId)] else [Go(t, newId)]
  }

  /** The two fields of a handle, as the calls change them. */
  class DbResource {
    var present: bool
    var leases: int

    ghost predicate Represents(s: State)
      reads this
    {
      present == s.open && leases == s.leases
    }

    constructor ()
      ensures Represents(FRESH)
    {
      present, leases := true, 0;
    }

    /** `DbLease::acquire`, by the thread that has just made a native child. */
    method Acquire(ghost s: State, ghost t: Id, ghost newId: Id)
      requires Represents(s) && Enabled(s, Go(t, newId))
      requires CallOf(s, t).IterNative? || CallOf(s, t).SnapNative?
      modifies this
      ensures Represents(Apply(s, Go(t, newId)))
    {
      leases := leases + 1;
    }

    /** Dropping a `DbLease`; the crate's own assertion holds. */
    method Release(ghost s: State, ghost a: Action)
      requires Represents(s) && Inv(s) && Enabled(s, a) && GivesUpLease(s, a)
      modifies this
      ensures Represents(Apply(s, a)) && leases >= 0
    {
      var previous := leases;
      leases := leases - 1;
      LeasesCoverHolders(s);
      assert previous > 0;
    }

    /** `close` under the write guard, when no other thread steps in between. */
    method Close(ghost s: State, ghost t: Id, ghost newId: Id) returns (reply: Reply)
      requires Represents(s) && Inv(s) && t in s.calls && s.calls[t] == Closing
      requires newId !in s.iters && newId !in s.snaps
      modifies this
      ensures reply == if old(present) && SomethingLeases(s) then BusyError else Done
      ensures present <==> old(present) && SomethingLeases(s)
      ensures CanRun(s, CloseRun(s, t, newId))
      ensures Represents(Run(s, CloseRun(s, t, newId)))
      ensures CallOf(Run(s, CloseRun(s, t, newId)), t) == Idle(Some(reply))
    {
      LeasesCoverHolders(s);
      CloseRunsToItsEnd(s, t, newId);
      if !present {
        return Done;
      }
      if leases != 0 {
        return BusyError;
      }
      present := false;
      return Done;
    }
  }

  lemma CloseRunsToItsEnd(s: State, t: Id, newId: Id)
    requires t in s.calls && s.calls[t] == Closing && newId !in s.iters && newId !in s.snaps
    ensures var run := CloseRun(s, t, newId);
            && CanRun(s, run)
            && Run(s, run).open == (s.open && s.leases != 0) && Run(s, run).leases == s.leases
            && CallOf(Run(s, run), t) == Idle(Some(if s.open && s.leases != 0 then BusyError else Done))
  {
    var go := Go(t, newId);
    var checked := Step(s, t, newId);
    if s.open && s.leases == 0 {
      var dropped := Step(checked, t, newId);
      RunOne(dropped, go);
      RunMore(checked, go, [go]);
      assert [go] + [go] == [go, go];
      RunMore(s, go, [go, go]);
      assert [go] + [go, go] == [go, go, go];
    } else {
      RunOne(s, go);
    }
  }

  lemma RunOne(s: State, a: Action)
    requires Enabled(s, a)
    ensures CanRun(s, [a]) && Run(s, [a]) == Apply(s, a)
  {
    assert [a][1..] == [];
  }

  lemma RunMore(s: State, a: Action, rest: seq<Action>)
    requires Enabled(s, a) && CanRun(Apply(s, a), rest)
    ensures CanRun(s, [a] + rest) && Run(s, [a] + rest) == Run(Apply(s, a), rest)
  {
    assert ([a] + rest)[1..] == rest;
  }
}
