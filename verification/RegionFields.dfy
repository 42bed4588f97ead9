/** Fields over the regions of a mesh, and the records of an equation that set them as time goes on. */
module RegionFields {
  import opened Options
  import opened Times

  // ---------------------------------------------------------------- one field

  /** The algorithm of a field on a region; the value if it is a constant selection; whether a new time changes it. */
  datatype Algorithm = Algorithm(id: int, constant: Option<int>, varies: bool)

  /** Where a field is not needed: on regions where the control field is a constant out of `off`. */
  datatype Control = Control(field: nat, off: set<int>)

  datatype FieldDef = FieldDef(bc: bool, default: Option<Algorithm>, control: Option<Control>)

  datatype FieldState = FieldState(table: seq<Option<Algorithm>>, pending: bool, changed: bool, last: Time, ready: bool) {
    function At(reg: nat): Option<Algorithm> {
      if reg < |table| then table[reg] else None
    }
  }

  const FRESH := FieldState([], false, false, NegInf, false)

  datatype Error = MissingValue(field: nat, region: nat) | MissingDomain

  datatype Result<T> = Ok(value: T) | Err(error: Error)

  /** The fields of an equation over regions, some of them on the boundary. */
  datatype Setup = Setup(defs: seq<FieldDef>, isBoundary: seq<bool>) {
    predicate Matches(f: nat, reg: nat)
      requires f < |defs| && reg < |isBoundary|
    {
      isBoundary[reg] == defs[f].bc
    }
  }

  function WithField(s: FieldState, n: nat, domain: seq<nat>, a: Algorithm): (t: FieldState)
    requires forall r <- domain :: r < n
  {
    if domain == [] then s
    else s.(table := seq(n, r requires 0 <= r < n => if r in domain then Some(a) else s.At(r)), pending := true)
  }

  predicate IsOff(setup: Setup, states: seq<FieldState>, f: nat, reg: nat)
    requires f < |setup.defs| == |states|
  {
    match setup.defs[f].control
    case None => false
    case Some(c) =>
      c.field < |states| && states[c.field].At(reg).Some? && states[c.field].At(reg).value.constant.Some?
      && states[c.field].At(reg).value.constant.value in c.off
  }

  /** The field has no value on a region where it is needed. */
  predicate Lacks(setup: Setup, states: seq<FieldState>, f: nat, reg: nat)
    requires f < |setup.defs| == |states| && reg < |setup.isBoundary|
  {
    setup.Matches(f, reg) && states[f].At(reg).None? && !IsOff(setup, states, f, reg)
  }

  /** The first region from `reg` on where the field lacks a value. */
  function FirstLack(setup: Setup, states: seq<FieldState>, f: nat, reg: nat): (r: Option<nat>)
    requires f < |setup.defs| == |states| && reg <= |setup.isBoundary|
    ensures r.Some? ==> reg <= r.value < |setup.isBoundary| && Lacks(setup, states, f, r.value)
    ensures r.None? ==> forall q | reg <= q < |setup.isBoundary| :: !Lacks(setup, states, f, q)
    decreases |setup.isBoundary| - reg
  {
    if reg == |setup.isBoundary| then None
    else if Lacks(setup, states, f, reg) then Some(reg)
    else FirstLack(setup, states, f, reg + 1)
  }

  /** The check that is made once: missing values come from the default, and without one they are an error. */
  function Checked(setup: Setup, states: seq<FieldState>, f: nat): Result<FieldState>
    requires f < |setup.defs| == |states|
  {
    var s, n, default := states[f], |setup.isBoundary|, setup.defs[f].default;
    if s.ready then Ok(s)
    else
      match FirstLack(setup, states, f, 0)
      case None => Ok(s.(table := seq(n, r requires 0 <= r < n => s.At(r)), ready := true))
      case Some(reg) =>
        if default.None? then Err(MissingValue(f, reg))
        else Ok(s.(table := seq(n, r requires 0 <= r < n => if Lacks(setup, states, f, r) then default else s.At(r)),
                   pending := true, ready := true))
  }

  predicate SomeVaries(setup: Setup, f: nat, table: seq<Option<Algorithm>>)
    requires f < |setup.defs|
  {
    exists r :: 0 <= r < |setup.isBoundary| && r < |table| && setup.Matches(f, r) && table[r].Some? && table[r].value.varies
  }

  /** One field moves to a time, once for every time. */
  function FieldAtTime(setup: Setup, states: seq<FieldState>, f: nat, t: Time): Result<FieldState>
    requires f < |setup.defs| == |states|
  {
    if t == states[f].last then Ok(states[f])
    else
      match Checked(setup, states, f)
      case Err(e) => Err(e)
      case Ok(s) => Ok(s.(last := t, changed := s.pending || SomeVaries(setup, f, s.table), pending := false))
  }

  // ---------------------------------------------------------------- records

  /** Values for some fields from a time on; the domain may be missing. */
  datatype Record = Record(time: real, domain: Option<seq<nat>>, values: map<nat, Algorithm>)

  ghost predicate DomainsFit(list: seq<Record>, n: nat) {
    forall rec <- list :: rec.domain.Some? ==> forall r <- rec.domain.value :: r < n
  }

  function ReadItem(setup: Setup, states: seq<FieldState>, rec: Record, bc: bool): (r: Result<seq<FieldState>>)
    requires |setup.defs| == |states| && (rec.domain.Some? ==> forall r <- rec.domain.value :: r < |setup.isBoundary|)
    ensures r.Ok? ==> |r.value| == |states|
  {
    if rec.domain.None? then Err(MissingDomain)
    else
      Ok(seq(|states|, f requires 0 <= f < |states| =>
        if setup.defs[f].bc == bc && f in rec.values then WithField(states[f], |setup.isBoundary|, rec.domain.value, rec.values[f])
        else states[f]))
  }

  /** Reads records until one is still ahead of the time. */
  function ReadOn(setup: Setup, states: seq<FieldState>, list: seq<Record>, it: nat, t: Time, bc: bool):
      (r: Result<(seq<FieldState>, nat)>)
    requires |setup.defs| == |states| && it <= |list| && DomainsFit(list, |setup.isBoundary|)
    ensures r.Ok? ==> |r.value.0| == |states| && it <= r.value.1 <= |list|
    decreases |list| - it
  {
    if it == |list| || !Ge(t, Fin(list[it].time)) then Ok((states, it))
    else
      assert list[it] in list;
      match ReadItem(setup, states, list[it], bc)
      case Err(e) => Err(e)
      case Ok(next) => ReadOn(setup, next, list, it + 1, t, bc)
  }

  /** Moves the fields from `f` on to a time, each seeing the fields before it already moved. */
  function FieldsAtTime(setup: Setup, states: seq<FieldState>, f: nat, t: Time, bc: bool): (r: Result<seq<FieldState>>)
    requires |setup.defs| == |states| && f <= |states|
    ensures r.Ok? ==> |r.value| == |states|
    decreases |states| - f
  {
    if f == |states| then Ok(states)
    else if setup.defs[f].bc != bc then FieldsAtTime(setup, states, f + 1, t, bc)
    else
      match FieldAtTime(setup, states, f, t)
      case Err(e) => Err(e)
      case Ok(s) => FieldsAtTime(setup, states[f := s], f + 1, t, bc)
  }

  datatype EqState = EqState(states: seq<FieldState>, boundaryIt: nat, bulkIt: nat)

  datatype Equation = Equation(setup: Setup, boundaryList: seq<Record>, bulkList: seq<Record>) {
    ghost predicate Valid() {
      DomainsFit(boundaryList, |setup.isBoundary|) && DomainsFit(bulkList, |setup.isBoundary|)
    }

    predicate Fits(s: EqState) {
      |s.states| == |setup.defs| && s.boundaryIt <= |boundaryList| && s.bulkIt <= |bulkList|
    }

    function List(bc: bool): seq<Record> { if bc then boundaryList else bulkList }
  }

  function It(s: EqState, bc: bool): nat { if bc then s.boundaryIt else s.bulkIt }

  function KindAtTime(eq: Equation, s: EqState, bc: bool, t: Time): (r: Result<EqState>)
    requires eq.Valid() && eq.Fits(s)
    ensures r.Ok? ==> eq.Fits(r.value)
  {
    match ReadOn(eq.setup, s.states, eq.List(bc), It(s, bc), t, bc)
    case Err(e) => Err(e)
    case Ok((states, it)) =>
      match FieldsAtTime(eq.setup, states, 0, t, bc)
      case Err(e) => Err(e)
      case Ok(moved) => Ok(if bc then EqState(moved, it, s.bulkIt) else EqState(moved, s.boundaryIt, it))
  }

  /** Boundary fields first, then bulk fields. */
  function AllAtTime(eq: Equation, s: EqState, t: Time): (r: Result<EqState>)
    requires eq.Valid() && eq.Fits(s)
    ensures r.Ok? ==> eq.Fits(r.value)
  {
    match KindAtTime(eq, s, true, t)
    case Err(e) => Err(e)
    case Ok(mid) => KindAtTime(eq, mid, false, t)
  }

  // ---------------------------------------------------------------- the batch

  predicate Sets(rec: Record, f: nat, reg: nat) {
    rec.domain.Some? && f in rec.values && reg in rec.domain.value
  }

  /** The latest of the first `k` records that sets the field on the region; `base` if there is none. */
  function Batch(list: seq<Record>, k: nat, f: nat, reg: nat, base: Option<Algorithm>): Option<Algorithm>
    requires k <= |list|
  {
    if k == 0 then base
    else if Sets(list[k - 1], f, reg) then Some(list[k - 1].values[f])
    else Batch(list, k - 1, f, reg, base)
  }

  /** One of the records from the `l`-th to before the `k`-th sets the field somewhere. */
  ghost predicate NewlySet(list: seq<Record>, l: nat, k: nat, f: nat)
    requires k <= |list|
  {
    exists j | l <= j < k :: list[j].domain.Some? && f in list[j].values && list[j].domain.value != []
  }

  lemma {:induction false} BatchOfBase(list: seq<Record>, k: nat, f: nat, reg: nat, base: Option<Algorithm>)
    requires k <= |list|
    ensures var b := Batch(list, k, f, reg, None); Batch(list, k, f, reg, base) == if b.Some? then b else base
  {
    if k > 0 {
      BatchOfBase(list, k - 1, f, reg, base);
    }
  }

  lemma {:induction false} BatchGrows(list: seq<Record>, k: nat, l: nat, f: nat, reg: nat)
    requires k <= l <= |list| && Batch(list, k, f, reg, None).Some?
    ensures Batch(list, l, f, reg, None).Some?
    decreases l
  {
    if k < l {
      BatchGrows(list, k, l - 1, f, reg);
    }
  }

  // ---------------------------------------------------------------- reading

  lemma {:induction false} ReadOnIsBatch(setup: Setup, states: seq<FieldState>, list: seq<Record>, it: nat, t: Time, bc: bool,
                                         f: nat, reg: nat, base: Option<Algorithm>)
    requires f < |setup.defs| == |states| && reg < |setup.isBoundary| && it <= |list| && DomainsFit(list, |setup.isBoundary|)
    requires setup.defs[f].bc == bc && states[f].At(reg) == Batch(list, it, f, reg, base)
    requires ReadOn(setup, states, list, it, t, bc).Ok?
    ensures var (st, k) := ReadOn(setup, states, list, it, t, bc).value;
            && st[f].At(reg) == Batch(list, k, f, reg, base)
            && st[f].ready == states[f].ready && st[f].last == states[f].last
    decreases |list| - it
  {
    if it < |list| && Ge(t, Fin(list[it].time)) {
      assert list[it] in list;
      var next := ReadItem(setup, states, list[it], bc).value;
      ReadOnIsBatch(setup, next, list, it + 1, t, bc, f, reg, base);
    }
  }

  lemma {:induction false} ReadOnOthers(setup: Setup, states: seq<FieldState>, list: seq<Record>, it: nat, t: Time, bc: bool, f: nat)
    requires f < |setup.defs| == |states| && it <= |list| && DomainsFit(list, |setup.isBoundary|)
    requires setup.defs[f].bc != bc && ReadOn(setup, states, list, it, t, bc).Ok?
    ensures ReadOn(setup, states, list, it, t, bc).value.0[f] == states[f]
    decreases |list| - it
  {
    if it < |list| && Ge(t, Fin(list[it].time)) {
      assert list[it] in list;
      ReadOnOthers(setup, ReadItem(setup, states, list[it], bc).value, list, it + 1, t, bc, f);
    }
  }

  lemma {:induction false} ReadOnStops(setup: Setup, states: seq<FieldState>, list: seq<Record>, it: nat, t: Time, bc: bool)
    requires |setup.defs| == |states| && it <= |list| && DomainsFit(list, |setup.isBoundary|)
    requires ReadOn(setup, states, list, it, t, bc).Ok?
    ensures var k := ReadOn(setup, states, list, it, t, bc).value.1;
            (forall i | it <= i < k :: Ge(t, Fin(list[i].time))) && (k == |list| || !Ge(t, Fin(list[k].time)))
    decreases |list| - it
  {
    if it < |list| && Ge(t, Fin(list[it].time)) {
      assert list[it] in list;
      ReadOnStops(setup, ReadItem(setup, states, list[it], bc).value, list, it + 1, t, bc);
    }
  }

  /** What the fields see when field `f` is moved: the fields before it moved, the others as read. */
  function Seen(moved: seq<FieldState>, states: seq<FieldState>, f: nat): seq<FieldState>
    requires f <= |moved| == |states|
  {
    moved[..f] + states[f..]
  }

  lemma {:induction false} FieldsMoved(setup: Setup, states: seq<FieldState>, from: nat, t: Time, bc: bool, f: nat)
    requires |setup.defs| == |states| && from <= |states| && f < |states| && FieldsAtTime(setup, states, from, t, bc).Ok?
    ensures var moved := FieldsAtTime(setup, states, from, t, bc).value;
            && (f < from || setup.defs[f].bc != bc ==> moved[f] == states[f])
            && (f >= from && setup.defs[f].bc == bc ==> FieldAtTime(setup, Seen(moved, states, f), f, t) == Ok(moved[f]))
    decreases |states| - from
  {
    if from < |states| {
      if setup.defs[from].bc != bc {
        FieldsMoved(setup, states, from + 1, t, bc, f);
      } else {
        var s := FieldAtTime(setup, states, from, t).value;
        var next := states[from := s];
        FieldsMoved(setup, next, from + 1, t, bc, f);
        var moved := FieldsAtTime(setup, states, from, t, bc).value;
        FieldsBefore(setup, next, from + 1, t, bc);
        if f == from {
          assert Seen(moved, states, f) == states;
        } else if f > from {
          assert Seen(moved, states, f) == Seen(moved, next, f);
        }
      }
    }
  }

  lemma {:induction false} FieldsBefore(setup: Setup, states: seq<FieldState>, from: nat, t: Time, bc: bool)
    requires |setup.defs| == |states| && from <= |states| && FieldsAtTime(setup, states, from, t, bc).Ok?
    ensures FieldsAtTime(setup, states, from, t, bc).value[..from] == states[..from]
    decreases |states| - from
  {
    if from < |states| {
      if setup.defs[from].bc != bc {
        FieldsBefore(setup, states, from + 1, t, bc);
        assert states[..from] == states[..from + 1][..from];
      } else {
        var next := states[from := FieldAtTime(setup, states, from, t).value];
        FieldsBefore(setup, next, from + 1, t, bc);
        assert states[..from] == next[..from + 1][..from];
      }
    }
  }

  /** What the records of a field gave up to the `l`-th of its list, they have given up to the `k`-th. */
  ghost predicate ReadUpTo(eq: Equation, c: nat, was: FieldState, l: nat, now: FieldState, k: nat)
    requires c < |eq.setup.defs| && l <= |eq.List(eq.setup.defs[c].bc)| && k <= |eq.List(eq.setup.defs[c].bc)|
  {
    var list := eq.List(eq.setup.defs[c].bc);
    forall reg, base | 0 <= reg < |eq.setup.isBoundary| && was.At(reg) == Batch(list, l, c, reg, base) ::
      now.At(reg) == Batch(list, k, c, reg, base)
  }

  lemma FieldRead(eq: Equation, s: EqState, bc: bool, t: Time, c: nat)
    requires eq.Valid() && eq.Fits(s) && c < |s.states| && eq.setup.defs[c].bc == bc
    requires ReadOn(eq.setup, s.states, eq.List(bc), It(s, bc), t, bc).Ok?
    ensures var (states, k) := ReadOn(eq.setup, s.states, eq.List(bc), It(s, bc), t, bc).value;
            ReadUpTo(eq, c, s.states[c], It(s, bc), states[c], k)
  {
    var (states, k) := ReadOn(eq.setup, s.states, eq.List(bc), It(s, bc), t, bc).value;
    forall reg, base | 0 <= reg < |eq.setup.isBoundary| && s.states[c].At(reg) == Batch(eq.List(bc), It(s, bc), c, reg, base)
      ensures states[c].At(reg) == Batch(eq.List(bc), k, c, reg, base)
    {
      ReadOnIsBatch(eq.setup, s.states, eq.List(bc), It(s, bc), t, bc, c, reg, base);
    }
  }

  /** What field `f` sees in one step: earlier fields of its kind moved, later ones as read, fields of the other kind as they were. */
  lemma StepOfField(eq: Equation, s: EqState, bc: bool, t: Time, f: nat) returns (seen: seq<FieldState>)
    requires eq.Valid() && eq.Fits(s) && f < |s.states| && eq.setup.defs[f].bc == bc && KindAtTime(eq, s, bc, t).Ok?
    ensures |seen| == |s.states| && FieldAtTime(eq.setup, seen, f, t) == Ok(KindAtTime(eq, s, bc, t).value.states[f])
    ensures KeptBut(s.states[f], seen[f], NewlySet(eq.List(bc), It(s, bc), It(KindAtTime(eq, s, bc, t).value, bc), f))
    ensures forall c | 0 <= c < f && eq.setup.defs[c].bc == bc :: seen[c] == KindAtTime(eq, s, bc, t).value.states[c]
    ensures forall c | f <= c < |seen| && eq.setup.defs[c].bc == bc ::
              ReadUpTo(eq, c, s.states[c], It(s, bc), seen[c], It(KindAtTime(eq, s, bc, t).value, bc))
    ensures forall c | 0 <= c < |seen| && eq.setup.defs[c].bc != bc :: seen[c] == s.states[c]
  {
    var (states, k) := ReadOn(eq.setup, s.states, eq.List(bc), It(s, bc), t, bc).value;
    var moved := FieldsAtTime(eq.setup, states, 0, t, bc).value;
    seen := Seen(moved, states, f);
    FieldsMoved(eq.setup, states, 0, t, bc, f);
    ReadOnKeeps(eq.setup, s.states, eq.List(bc), It(s, bc), t, bc, f);
    forall c | f <= c < |seen| && eq.setup.defs[c].bc == bc
      ensures ReadUpTo(eq, c, s.states[c], It(s, bc), seen[c], k)
    {
      FieldRead(eq, s, bc, t, c);
    }
    forall c | 0 <= c < |seen| && eq.setup.defs[c].bc != bc
      ensures seen[c] == s.states[c]
    {
      ReadOnOthers(eq.setup, s.states, eq.List(bc), It(s, bc), t, bc, c);
      FieldsMoved(eq.setup, states, 0, t, bc, c);
    }
  }

  lemma {:induction false} ReadOnKeeps(setup: Setup, states: seq<FieldState>, list: seq<Record>, it: nat, t: Time, bc: bool, f: nat)
    requires f < |setup.defs| == |states| && it <= |list| && DomainsFit(list, |setup.isBoundary|)
    requires setup.defs[f].bc == bc && ReadOn(setup, states, list, it, t, bc).Ok?
    ensures var (st, k) := ReadOn(setup, states, list, it, t, bc).value; KeptBut(states[f], st[f], NewlySet(list, it, k, f))
    decreases |list| - it
  {
    if it < |list| && Ge(t, Fin(list[it].time)) {
      assert list[it] in list;
      var next := ReadItem(setup, states, list[it], bc).value;
      ReadOnKeeps(setup, next, list, it + 1, t, bc, f);
      var k := ReadOn(setup, states, list, it, t, bc).value.1;
      var sets := list[it].domain.Some? && f in list[it].values && list[it].domain.value != [];
      assert NewlySet(list, it, k, f) <==> NewlySet(list, it + 1, k, f) || sets;
    }
  }

  /** The records that were read have set the field, or have left it as it was. */
  predicate KeptBut(was: FieldState, now: FieldState, touched: bool) {
    && now.ready == was.ready && now.last == was.last && now.changed == was.changed
    && now.pending == (was.pending || touched) && (!touched ==> now.table == was.table)
  }

  lemma OtherKind(eq: Equation, s: EqState, bc: bool, t: Time, f: nat)
    requires eq.Valid() && eq.Fits(s) && f < |s.states| && eq.setup.defs[f].bc != bc && KindAtTime(eq, s, bc, t).Ok?
    ensures KindAtTime(eq, s, bc, t).value.states[f] == s.states[f] && It(KindAtTime(eq, s, bc, t).value, !bc) == It(s, !bc)
  {
    var (states, k) := ReadOn(eq.setup, s.states, eq.List(bc), It(s, bc), t, bc).value;
    ReadOnOthers(eq.setup, s.states, eq.List(bc), It(s, bc), t, bc, f);
    FieldsMoved(eq.setup, states, 0, t, bc, f);
  }

  // ---------------------------------------------------------------- whole runs

  /**
   * One call for one field, and what it sees when it is moved: earlier fields of its kind after the call, later ones as read,
   * boundary fields after the call if it is a bulk field, bulk fields before the call if it is a boundary field.
   */
  lemma Call(eq: Equation, s: EqState, t: Time, f: nat) returns (seen: seq<FieldState>)
    requires eq.Valid() && eq.Fits(s) && f < |s.states| && AllAtTime(eq, s, t).Ok?
    ensures |seen| == |s.states| && FieldAtTime(eq.setup, seen, f, t) == Ok(AllAtTime(eq, s, t).value.states[f])
    ensures var u, bc := AllAtTime(eq, s, t).value, eq.setup.defs[f].bc;
            && KeptBut(s.states[f], seen[f], NewlySet(eq.List(bc), It(s, bc), It(u, bc), f))
            && (forall c | 0 <= c < f && eq.setup.defs[c].bc == bc :: seen[c] == u.states[c])
            && (forall c | f <= c < |seen| && eq.setup.defs[c].bc == bc ::
                  ReadUpTo(eq, c, s.states[c], It(s, bc), seen[c], It(u, bc)))
            && (forall c | 0 <= c < |seen| && eq.setup.defs[c].bc != bc :: seen[c] == if bc then s.states[c] else u.states[c])
  {
    hide ReadUpTo;
    var mid := KindAtTime(eq, s, true, t).value;
    if eq.setup.defs[f].bc {
      seen := StepOfField(eq, s, true, t, f);
      OtherKind(eq, mid, false, t, f);
      forall c | 0 <= c < f && eq.setup.defs[c].bc
        ensures seen[c] == AllAtTime(eq, s, t).value.states[c]
      {
        OtherKind(eq, mid, false, t, c);
      }
    } else {
      OtherKind(eq, s, true, t, f);
      seen := StepOfField(eq, mid, false, t, f);
      forall c | 0 <= c < |seen| && eq.setup.defs[c].bc
        ensures seen[c] == AllAtTime(eq, s, t).value.states[c]
      {
        OtherKind(eq, mid, false, t, c);
      }
      forall c | f <= c < |seen| && !eq.setup.defs[c].bc
        ensures s.states[c] == mid.states[c]
      {
        OtherKind(eq, s, true, t, c);
      }
    }
  }

  lemma CallReads(eq: Equation, s: EqState, t: Time, bc: bool)
    requires eq.Valid() && eq.Fits(s) && AllAtTime(eq, s, t).Ok?
    ensures var list, k := eq.List(bc), It(AllAtTime(eq, s, t).value, bc);
            && It(s, bc) <= k <= |list| && (forall i | It(s, bc) <= i < k :: Ge(t, Fin(list[i].time)))
            && (k == |list| || !Ge(t, Fin(list[k].time)))
  {
    var mid := KindAtTime(eq, s, true, t).value;
    ReadOnStops(eq.setup, s.states, eq.List(true), It(s, true), t, true);
    ReadOnStops(eq.setup, mid.states, eq.List(false), It(mid, false), t, false);
  }

  ghost predicate IsRun(eq: Equation, ss: seq<EqState>, ts: seq<Time>) {
    && eq.Valid() && |ss| == |ts| + 1 && NegInf !in ts && ss[0] == EqState(seq(|eq.setup.defs|, _ => FRESH), 0, 0)
    && (forall i | 0 <= i < |ss| :: eq.Fits(ss[i])) && forall i | 0 <= i < |ts| :: CallAt(eq, ss, ts, i)
  }

  ghost predicate CallAt(eq: Equation, ss: seq<EqState>, ts: seq<Time>, i: nat)
    requires eq.Valid() && i < |ts| < |ss| && eq.Fits(ss[i])
  {
    AllAtTime(eq, ss[i], ts[i]) == Ok(ss[i + 1])
  }

  /** The times of the records do not decrease and none is before zero. */
  predicate TimesFit(list: seq<Record>) {
    && (forall i | 0 <= i < |list| :: list[i].time >= 0.0)
    && forall i, j | 0 <= i < j < |list| :: list[i].time <= list[j].time
  }

  ghost predicate Nondecreasing(ts: seq<Time>) {
    forall i, j | 0 <= i < j < |ts| :: !Less(ts[j], ts[i])
  }

  lemma GeInTime(t: Time, u: Time, o: real)
    requires !Less(u, t) && Ge(t, Fin(o))
    ensures Ge(u, Fin(o))
  {
  }

  lemma GeInRecord(t: Time, o: real, p: real)
    requires o <= p && Ge(t, Fin(p))
    ensures Ge(t, Fin(o))
  {
    if t.Fin? {
      LtMonotone(t.t, o, p);
    }
  }

  /** After each call exactly the records that are due at its time have been read. */
  lemma {:induction false} ReadExactlyDue(eq: Equation, ss: seq<EqState>, ts: seq<Time>, bc: bool, i: nat, j: nat)
    requires IsRun(eq, ss, ts) && Nondecreasing(ts) && TimesFit(eq.List(bc)) && 0 < i <= |ts| && j < |eq.List(bc)|
    ensures j < It(ss[i], bc) <==> Ge(ts[i - 1], Fin(eq.List(bc)[j].time))
    decreases i
  {
    var list := eq.List(bc);
    assert CallAt(eq, ss, ts, i - 1);
    CallReads(eq, ss[i - 1], ts[i - 1], bc);
    var k := It(ss[i], bc);
    if j < k {
      if j < It(ss[i - 1], bc) && i > 1 {
        ReadExactlyDue(eq, ss, ts, bc, i - 1, j);
        GeInTime(ts[i - 2], ts[i - 1], list[j].time);
      }
    } else if Ge(ts[i - 1], Fin(list[j].time)) {
      GeInRecord(ts[i - 1], list[k].time, list[j].time);
    }
  }

  /** The check fills exactly the regions where the field lacks a value, and fails unless there is a default for them. */
  lemma FirstCheck(setup: Setup, states: seq<FieldState>, f: nat, t: Time, reg: nat)
    requires f < |setup.defs| == |states| && reg < |setup.isBoundary|
    requires !states[f].ready && states[f].last != t && FieldAtTime(setup, states, f, t).Ok?
    ensures var u := FieldAtTime(setup, states, f, t).value;
            && u.ready && u.At(reg) == (if Lacks(setup, states, f, reg) then setup.defs[f].default else states[f].At(reg))
            && (Lacks(setup, states, f, reg) ==> setup.defs[f].default.Some?)
  {
  }

  /**
   * The field on a region after the first call, from the records read in it: the latest record; failing that the default, unless
   * the control field turns the region off.
   */
  function FirstValue(eq: Equation, s: EqState, f: nat, reg: nat): Option<Algorithm>
    requires eq.Fits(s) && f < |eq.setup.defs| && reg < |eq.setup.isBoundary|
    decreases if eq.setup.defs[f].bc then 0 else 1, f, 2
  {
    var bc := eq.setup.defs[f].bc;
    var b := Batch(eq.List(bc), It(s, bc), f, reg, None);
    if b.Some? then b
    else if eq.setup.Matches(f, reg) && !OffAtFirst(eq, s, f, reg) then eq.setup.defs[f].default
    else None
  }

  /** What field `f` sees of field `c` in the first call. */
  function SeenAtFirst(eq: Equation, s: EqState, f: nat, c: nat, reg: nat): Option<Algorithm>
    requires eq.Fits(s) && f < |eq.setup.defs| && reg < |eq.setup.isBoundary|
    decreases if eq.setup.defs[f].bc then 0 else 1, f, 0
  {
    if c >= |eq.setup.defs| then None
    else
      var bc := eq.setup.defs[f].bc;
      if eq.setup.defs[c].bc == bc then
        if c < f then FirstValue(eq, s, c, reg) else Batch(eq.List(bc), It(s, bc), c, reg, None)
      else if eq.setup.defs[c].bc then FirstValue(eq, s, c, reg)
      else None
  }

  predicate OffAtFirst(eq: Equation, s: EqState, f: nat, reg: nat)
    requires eq.Fits(s) && f < |eq.setup.defs| && reg < |eq.setup.isBoundary|
    decreases if eq.setup.defs[f].bc then 0 else 1, f, 1
  {
    match eq.setup.defs[f].control
    case None => false
    case Some(control) =>
      var a := SeenAtFirst(eq, s, f, control.field, reg);
      a.Some? && a.value.constant.Some? && a.value.constant.value in control.off
  }

  /** The first call gives every field on every region the value that the records read in it ask for. */
  lemma {:induction false} FirstCall(eq: Equation, ss: seq<EqState>, ts: seq<Time>, f: nat, reg: nat)
    requires IsRun(eq, ss, ts) && |ts| > 0 && f < |eq.setup.defs| && reg < |eq.setup.isBoundary|
    ensures ss[1].states[f].ready && ss[1].states[f].At(reg) == FirstValue(eq, ss[1], f, reg)
    ensures eq.setup.Matches(f, reg) && ss[1].states[f].At(reg).None? ==> OffAtFirst(eq, ss[1], f, reg)
    decreases if eq.setup.defs[f].bc then 0 else 1, f
  {
    assert CallAt(eq, ss, ts, 0);
    var seen := Call(eq, ss[0], ts[0], f);
    var bc := eq.setup.defs[f].bc;
    SeenBatch(eq, ss, seen, f, reg);
    if eq.setup.defs[f].control.Some? && eq.setup.defs[f].control.value.field < |seen| {
      var c := eq.setup.defs[f].control.value.field;
      if eq.setup.defs[c].bc == bc && c >= f {
        SeenBatch(eq, ss, seen, c, reg);
      } else if eq.setup.defs[c].bc == bc || eq.setup.defs[c].bc {
        FirstCall(eq, ss, ts, c, reg);
      }
      assert seen[c].At(reg) == SeenAtFirst(eq, ss[1], f, c, reg);
    }
    assert IsOff(eq.setup, seen, f, reg) == OffAtFirst(eq, ss[1], f, reg);
    hide IsOff, OffAtFirst, FieldAtTime;
    FirstCheck(eq.setup, seen, f, ts[0], reg);
  }

  lemma SeenBatch(eq: Equation, ss: seq<EqState>, seen: seq<FieldState>, c: nat, reg: nat)
    requires |ss| > 1 && eq.Fits(ss[1]) && ss[0] == EqState(seq(|eq.setup.defs|, _ => FRESH), 0, 0)
    requires c < |seen| == |eq.setup.defs| && reg < |eq.setup.isBoundary|
    requires var bc := eq.setup.defs[c].bc; ReadUpTo(eq, c, ss[0].states[c], It(ss[0], bc), seen[c], It(ss[1], bc))
    ensures var bc := eq.setup.defs[c].bc; seen[c].At(reg) == Batch(eq.List(bc), It(ss[1], bc), c, reg, None)
  {
    var bc := eq.setup.defs[c].bc;
    assert ss[0].states[c].At(reg) == Batch(eq.List(bc), It(ss[0], bc), c, reg, None);
  }

  /** After every call each field on each region is the latest due record; failing that, what the first call left there. */
  lemma {:induction false} RunIsBatch(eq: Equation, ss: seq<EqState>, ts: seq<Time>, i: nat, f: nat, reg: nat)
    requires IsRun(eq, ss, ts) && 0 < i <= |ts| && f < |eq.setup.defs| && reg < |eq.setup.isBoundary|
    ensures var bc := eq.setup.defs[f].bc;
            && ss[i].states[f].ready
            && ss[i].states[f].At(reg) == Batch(eq.List(bc), It(ss[i], bc), f, reg, ss[1].states[f].At(reg))
    decreases i
  {
    var bc := eq.setup.defs[f].bc;
    if i == 1 {
      FirstCall(eq, ss, ts, f, reg);
      BatchOfBase(eq.List(bc), It(ss[1], bc), f, reg, ss[1].states[f].At(reg));
    } else {
      RunIsBatch(eq, ss, ts, i - 1, f, reg);
      assert CallAt(eq, ss, ts, i - 1);
      var seen := Call(eq, ss[i - 1], ts[i - 1], f);
      assert seen[f].At(reg) == Batch(eq.List(bc), It(ss[i], bc), f, reg, ss[1].states[f].At(reg));
    }
  }

  lemma {:induction false} NeverUnread(eq: Equation, ss: seq<EqState>, ts: seq<Time>, bc: bool, i: nat)
    requires IsRun(eq, ss, ts) && 0 < i <= |ts|
    ensures It(ss[1], bc) <= It(ss[i], bc)
    decreases i
  {
    if i > 1 {
      NeverUnread(eq, ss, ts, bc, i - 1);
      assert CallAt(eq, ss, ts, i - 1);
      CallReads(eq, ss[i - 1], ts[i - 1], bc);
    }
  }

  /** A region that has a field after the first call always has one. */
  lemma NeverLost(eq: Equation, ss: seq<EqState>, ts: seq<Time>, i: nat, f: nat, reg: nat)
    requires IsRun(eq, ss, ts) && 0 < i <= |ts| && f < |eq.setup.defs| && reg < |eq.setup.isBoundary|
    requires ss[1].states[f].At(reg).Some?
    ensures ss[i].states[f].At(reg).Some?
  {
    var bc := eq.setup.defs[f].bc;
    RunIsBatch(eq, ss, ts, i, f, reg);
    BatchOfBase(eq.List(bc), It(ss[i], bc), f, reg, ss[1].states[f].At(reg));
  }

  /** A region of the field's kind is without a field exactly when it was turned off in the first call and no record has set it. */
  lemma EmptyIff(eq: Equation, ss: seq<EqState>, ts: seq<Time>, i: nat, f: nat, reg: nat)
    requires IsRun(eq, ss, ts) && 0 < i <= |ts|
    requires f < |eq.setup.defs| && reg < |eq.setup.isBoundary| && eq.setup.Matches(f, reg)
    ensures var bc := eq.setup.defs[f].bc;
            ss[i].states[f].At(reg).None?
            <==> OffAtFirst(eq, ss[1], f, reg) && Batch(eq.List(bc), It(ss[i], bc), f, reg, None).None?
  {
    hide OffAtFirst;
    var bc := eq.setup.defs[f].bc;
    FirstCall(eq, ss, ts, f, reg);
    RunIsBatch(eq, ss, ts, i, f, reg);
    BatchOfBase(eq.List(bc), It(ss[i], bc), f, reg, ss[1].states[f].At(reg));
    NeverUnread(eq, ss, ts, bc, i);
    if Batch(eq.List(bc), It(ss[1], bc), f, reg, None).Some? {
      BatchGrows(eq.List(bc), It(ss[1], bc), It(ss[i], bc), f, reg);
    }
  }

  lemma NothingAtSameTime(eq: Equation, ss: seq<EqState>, ts: seq<Time>, bc: bool, i: nat)
    requires IsRun(eq, ss, ts) && 0 < i < |ts| && ts[i] == ts[i - 1]
    ensures It(ss[i + 1], bc) == It(ss[i], bc)
  {
    assert CallAt(eq, ss, ts, i - 1) && CallAt(eq, ss, ts, i);
    CallReads(eq, ss[i - 1], ts[i - 1], bc);
    CallReads(eq, ss[i], ts[i], bc);
  }

  lemma {:induction false} RunSettles(eq: Equation, ss: seq<EqState>, ts: seq<Time>, i: nat, f: nat)
    requires IsRun(eq, ss, ts) && 0 < i <= |ts| && f < |eq.setup.defs|
    ensures var s := ss[i].states[f]; s.ready && !s.pending && s.last == ts[i - 1]
    decreases i
  {
    assert CallAt(eq, ss, ts, i - 1);
    var seen := Call(eq, ss[i - 1], ts[i - 1], f);
    if i > 1 {
      RunSettles(eq, ss, ts, i - 1, f);
      if ts[i - 1] == ts[i - 2] {
        NothingAtSameTime(eq, ss, ts, eq.setup.defs[f].bc, i - 1);
      }
    }
  }

  /** A second call for the same time changes no field. */
  lemma SameTimeSameField(eq: Equation, ss: seq<EqState>, ts: seq<Time>, i: nat, f: nat)
    requires IsRun(eq, ss, ts) && 0 < i < |ts| && ts[i] == ts[i - 1] && f < |eq.setup.defs|
    ensures ss[i + 1].states[f] == ss[i].states[f]
  {
    assert CallAt(eq, ss, ts, i);
    var seen := Call(eq, ss[i], ts[i], f);
    RunSettles(eq, ss, ts, i, f);
    NothingAtSameTime(eq, ss, ts, eq.setup.defs[f].bc, i);
  }

  /**
   * After a later call at a new time a field says that it has changed exactly when a record read in this call has set it somewhere
   * or one of its algorithms depends on time; when it does not say so, it is the same on every region.
   */
  lemma ChangedIff(eq: Equation, ss: seq<EqState>, ts: seq<Time>, i: nat, f: nat)
    requires IsRun(eq, ss, ts) && 0 < i < |ts| && ts[i] != ts[i - 1] && f < |eq.setup.defs|
    ensures var bc, now := eq.setup.defs[f].bc, ss[i + 1].states[f];
            && (now.changed <==> NewlySet(eq.List(bc), It(ss[i], bc), It(ss[i + 1], bc), f) || SomeVaries(eq.setup, f, now.table))
            && (!now.changed ==> now.table == ss[i].states[f].table)
  {
    assert CallAt(eq, ss, ts, i);
    var seen := Call(eq, ss[i], ts[i], f);
    RunSettles(eq, ss, ts, i, f);
  }

  // ---------------------------------------------------------------- a field that is needed but has no value

  /** One region; field 1 is off where field 0 is the selection 0, which it is at first and no longer from time 5 on. */
  function TurnedOnLater(): Equation {
    Equation(Setup([FieldDef(false, None, None), FieldDef(false, None, Some(Control(0, {0})))], [false]), [],
             [Record(0.0, Some([0]), map[0 := Algorithm(0, Some(0), false)]),
              Record(5.0, Some([0]), map[0 := Algorithm(1, Some(1), false)])])
  }

  function StateWith(a: Algorithm, t: Time, it: nat): EqState {
    EqState([FieldState([Some(a)], false, true, t, true), FieldState([None], false, false, t, true)], 0, it)
  }

  lemma ReadOneRecord(states: seq<FieldState>, it: nat, t: Time)
    requires |states| == 2 && it < 2 && Ge(t, Fin(TurnedOnLater().bulkList[it].time))
    requires it == 0 ==> !Ge(t, Fin(5.0))
    ensures var eq := TurnedOnLater();
            && DomainsFit(eq.bulkList, 1)
            && var s := states[0].(table := [Some(Algorithm(it, Some(it), false))], pending := true);
            ReadOn(eq.setup, states, eq.bulkList, it, t, false) == Ok(([s, states[1]], it + 1))
  {
    var eq := TurnedOnLater();
    var s := states[0].(table := [Some(Algorithm(it, Some(it), false))], pending := true);
    assert ReadItem(eq.setup, states, eq.bulkList[it], false) == Ok([s, states[1]]) by {
      assert WithField(states[0], 1, [0], Algorithm(it, Some(it), false)).table == [Some(Algorithm(it, Some(it), false))];
      assert ReadItem(eq.setup, states, eq.bulkList[it], false).value == [s, states[1]];
    }
  }

  lemma BoundaryIdle(s: EqState, t: Time)
    requires |s.states| == 2 && s.boundaryIt == 0 && s.bulkIt <= 2
    ensures TurnedOnLater().Valid() && KindAtTime(TurnedOnLater(), s, true, t) == Ok(s)
  {
    var setup := TurnedOnLater().setup;
    assert FieldsAtTime(setup, s.states, 2, t, true) == Ok(s.states);
    assert FieldsAtTime(setup, s.states, 1, t, true) == Ok(s.states);
  }

  lemma FirstStates(a: Algorithm)
    requires a.constant == Some(0) && !a.varies
    ensures var read := [FRESH.(table := [Some(a)], pending := true), FRESH];
            FieldsAtTime(TurnedOnLater().setup, read, 0, Fin(0.0), false) == Ok(StateWith(a, Fin(0.0), 1).states)
  {
    var setup := TurnedOnLater().setup;
    var read := [FRESH.(table := [Some(a)], pending := true), FRESH];
    var s := FieldAtTime(setup, read, 0, Fin(0.0)).value;
    assert s.table == [Some(a)];
    var next := read[0 := s];
    var u := FieldAtTime(setup, next, 1, Fin(0.0)).value;
    assert u.table == [None];
    assert FieldsAtTime(setup, next[1 := u], 2, Fin(0.0), false) == Ok(next[1 := u]);
    assert next[1 := u] == StateWith(a, Fin(0.0), 1).states;
  }

  lemma SecondStates(a: Algorithm, b: Algorithm)
    requires !a.varies && !b.varies
    ensures var was := StateWith(a, Fin(0.0), 1).states;
            var read := [was[0].(table := [Some(b)], pending := true), was[1]];
            FieldsAtTime(TurnedOnLater().setup, read, 0, Fin(5.0), false) == Ok(StateWith(b, Fin(5.0), 2).states)
  {
    var setup, was := TurnedOnLater().setup, StateWith(a, Fin(0.0), 1).states;
    var read := [was[0].(table := [Some(b)], pending := true), was[1]];
    var s := FieldAtTime(setup, read, 0, Fin(5.0)).value;
    var next := read[0 := s];
    var u := FieldAtTime(setup, next, 1, Fin(5.0)).value;
    assert FieldsAtTime(setup, next[1 := u], 2, Fin(5.0), false) == Ok(next[1 := u]);
    assert next[1 := u] == StateWith(b, Fin(5.0), 2).states;
  }

  function Chosen(k: int): Algorithm { Algorithm(k, Some(k), false) }

  lemma FirstOfTwo()
    ensures var s0 := EqState([FRESH, FRESH], 0, 0);
            TurnedOnLater().Valid() && AllAtTime(TurnedOnLater(), s0, Fin(0.0)) == Ok(StateWith(Chosen(0), Fin(0.0), 1))
  {
    hide ReadOn, FieldsAtTime;
    var s0 := EqState([FRESH, FRESH], 0, 0);
    BoundaryIdle(s0, Fin(0.0));
    ReadOneRecord(s0.states, 0, Fin(0.0));
    FirstStates(Chosen(0));
  }

  lemma SecondOfTwo()
    ensures TurnedOnLater().Valid()
    ensures AllAtTime(TurnedOnLater(), StateWith(Chosen(0), Fin(0.0), 1), Fin(5.0)) == Ok(StateWith(Chosen(1), Fin(5.0), 2))
  {
    hide ReadOn, FieldsAtTime;
    var s1 := StateWith(Chosen(0), Fin(0.0), 1);
    BoundaryIdle(s1, Fin(5.0));
    ReadOneRecord(s1.states, 1, Fin(5.0));
    SecondStates(Chosen(0), Chosen(1));
  }

  /** A field that the control field turned off in the first call is missing when the control field turns it on later. */
  lemma NeededButEmpty() returns (ss: seq<EqState>, ts: seq<Time>)
    ensures IsRun(TurnedOnLater(), ss, ts) && Nondecreasing(ts) && TimesFit(TurnedOnLater().bulkList) && |ts| == 2
    ensures Lacks(TurnedOnLater().setup, ss[2].states, 1, 0)
  {
    hide AllAtTime;
    var eq, s0 := TurnedOnLater(), EqState([FRESH, FRESH], 0, 0);
    ts := [Fin(0.0), Fin(5.0)];
    ss := [s0, StateWith(Chosen(0), Fin(0.0), 1), StateWith(Chosen(1), Fin(5.0), 2)];
    assert s0.states == seq(|eq.setup.defs|, _ => FRESH);
    FirstOfTwo();
    SecondOfTwo();
    assert CallAt(eq, ss, ts, 0) && CallAt(eq, ss, ts, 1);
  }

  // ---------------------------------------------------------------- in place

  class EqDataBase {
    const setup: Setup
    const boundaryList: seq<Record>
    const bulkList: seq<Record>
    var states: seq<FieldState>
    var boundaryIt: nat
    var bulkIt: nat

    constructor (eq: Equation)
      ensures Eq() == eq && State() == EqState(seq(|eq.setup.defs|, _ => FRESH), 0, 0)
    {
      setup, boundaryList, bulkList := eq.setup, eq.boundaryList, eq.bulkList;
      states := seq(|eq.setup.defs|, _ => FRESH);
      boundaryIt, bulkIt := 0, 0;
    }

    function Eq(): Equation {
      Equation(setup, boundaryList, bulkList)
    }

    function State(): EqState
      reads this
    {
      EqState(states, boundaryIt, bulkIt)
    }

    /** The first record whose time is before that of the one ahead of it, or before zero. */
    method CheckTimes(list: seq<Record>) returns (bad: Option<nat>)
      ensures bad.None? <==> TimesFit(list)
      ensures bad.Some? ==> bad.value < |list| && TimesFit(list[..bad.value]) && !TimesFit(list[..bad.value + 1])
    {
      var lastTime := 0.0;
      for i := 0 to |list|
        invariant TimesFit(list[..i]) && lastTime == if i == 0 then 0.0 else list[i - 1].time
      {
        var time := list[i].time;
        if time < lastTime {
          assert list[..i + 1][i].time < lastTime;
          assert i > 0 ==> list[..i + 1][i - 1].time == lastTime;
          return Some(i);
        }
        lastTime := time;
      }
      assert list[..|list|] == list;
      return None;
    }

    /** Sets the fields of one kind that the record has values for, on its domain. */
    method ReadListItem(rec: Record, bc: bool) returns (error: Option<Error>)
      requires |states| == |setup.defs| && (rec.domain.Some? ==> forall r <- rec.domain.value :: r < |setup.isBoundary|)
      modifies this`states
      ensures match ReadItem(setup, old(states), rec, bc)
              case Ok(read) => error.None? && states == read
              case Err(e) => error == Some(e) && states == old(states)
    {
      if rec.domain.None? {
        return Some(MissingDomain);
      }
      ghost var read := ReadItem(setup, states, rec, bc).value;
      ghost var was := states;
      for f := 0 to |setup.defs|
        invariant |states| == |was| && (forall g | 0 <= g < f :: states[g] == read[g]) && forall g | f <= g < |was| :: states[g] == was[g]
      {
        if setup.defs[f].bc == bc && f in rec.values {
          states := states[f := WithField(states[f], |setup.isBoundary|, rec.domain.value, rec.values[f])];
        }
      }
      return None;
    }

    /** Reads the records of one kind that are due. */
    method ReadRecords(t: Time, bc: bool) returns (error: Option<Error>)
      requires Eq().Valid() && Eq().Fits(State())
      modifies this
      ensures Eq().Fits(State()) && It(State(), !bc) == old(It(State(), !bc))
      ensures match ReadOn(setup, old(states), Eq().List(bc), old(It(State(), bc)), t, bc)
              case Ok((read, it)) => error.None? && states == read && It(State(), bc) == it
              case Err(e) => error == Some(e)
    {
      var list := Eq().List(bc);
      while It(State(), bc) != |list| && Ge(t, Fin(list[It(State(), bc)].time))
        invariant Eq().Fits(State()) && It(State(), !bc) == old(It(State(), !bc))
        invariant ReadOn(setup, states, list, It(State(), bc), t, bc) == ReadOn(setup, old(states), list, old(It(State(), bc)), t, bc)
        decreases |list| - It(State(), bc)
      {
        var rec := list[It(State(), bc)];
        assert rec in list;
        var e := ReadListItem(rec, bc);
        if e.Some? {
          return e;
        }
        if bc {
          boundaryIt := boundaryIt + 1;
        } else {
          bulkIt := bulkIt + 1;
        }
      }
      return None;
    }

    /** Moves the fields of one kind to a time. */
    method MoveFields(t: Time, bc: bool) returns (error: Option<Error>)
      requires |states| == |setup.defs|
      modifies this`states
      ensures |states| == |setup.defs|
      ensures match FieldsAtTime(setup, old(states), 0, t, bc)
              case Ok(moved) => error.None? && states == moved
              case Err(e) => error == Some(e)
    {
      for f := 0 to |setup.defs|
        invariant |states| == |setup.defs|
        invariant FieldsAtTime(setup, states, f, t, bc) == FieldsAtTime(setup, old(states), 0, t, bc)
      {
        if setup.defs[f].bc == bc {
          match FieldAtTime(setup, states, f, t)
          case Err(e) => {
            return Some(e);
          }
          case Ok(s) => {
            states := states[f := s];
          }
        }
      }
      return None;
    }

    /** Reads the due records and moves the fields, boundary first. */
    method SetTime(t: Time) returns (error: Option<Error>)
      requires Eq().Valid() && Eq().Fits(State())
      modifies this
      ensures match AllAtTime(Eq(), old(State()), t)
              case Ok(u) => error.None? && State() == u
              case Err(e) => error == Some(e)
    {
      error := SetTimeOfKind(t, true);
      if error.None? {
        error := SetTimeOfKind(t, false);
      }
    }

    method SetTimeOfKind(t: Time, bc: bool) returns (error: Option<Error>)
      requires Eq().Valid() && Eq().Fits(State())
      modifies this
      ensures match KindAtTime(Eq(), old(State()), bc, t)
              case Ok(u) => error.None? && State() == u
              case Err(e) => error == Some(e)
    {
      error := ReadRecords(t, bc);
      if error.None? {
        error := MoveFields(t, bc);
      }
    }
  }
}
