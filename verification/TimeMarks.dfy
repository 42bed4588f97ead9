/** The database of time marks shared by all time governors. */
module TimeMarks {
  import opened Options
  import opened Times

  /** A word of mark bits, as the set of the positions of its ones. */
  type MarkType = set<nat>

  const WORD: nat := 64
  const EVERY_TYPE: MarkType := set b: nat | b < WORD

  datatype TimeMark = TimeMark(time: Time, markType: MarkType) {
    /** All bits of the mask are set. */
    predicate Matches(mask: MarkType) {
      mask <= markType
    }

    function AddToType(more: MarkType): TimeMark {
      TimeMark(time, markType + more)
    }
  }

  const START: TimeMark := TimeMark(NegInf, EVERY_TYPE)
  const STOP: TimeMark := TimeMark(PosInf, EVERY_TYPE)

  /** What the queries see of a time governor. */
  datatype Clock = Clock(t: Time, dt: Time, endTime: Time)

  /** Closer than two machine epsilons, 2 to the -51; the difference of equal infinities is not a number. */
  predicate Close(a: Time, b: Time) {
    a.Fin? && b.Fin? && Abs(a.t - b.t) < 1.0 / 2251799813685248.0
  }

  predicate Precedes(a: Time, b: Time) {
    !Less(b, a) && (a.Fin? && b.Fin? ==> b.t - a.t >= 1.0 / 2251799813685248.0)
  }

  /** Sorted, finite marks at least two epsilons apart, with both stoppers in place. */
  ghost predicate WellFormed(ms: seq<TimeMark>) {
    && START in ms && |ms| >= 2 && ms[|ms| - 1] == STOP
    && forall i, j | 0 <= i < j < |ms| :: Precedes(ms[i].time, ms[j].time)
  }

  // ---------------------------------------------------------------- insertion

  /** First position whose mark is not before `t`. */
  function LowerBound(ms: seq<TimeMark>, t: Time, i: nat): (r: nat)
    requires i <= |ms|
    ensures i <= r <= |ms|
    ensures forall j | i <= j < r :: Less(ms[j].time, t)
    ensures r < |ms| ==> !Less(ms[r].time, t)
    decreases |ms| - i
  {
    if i == |ms| || !Less(ms[i].time, t) then i else LowerBound(ms, t, i + 1)
  }

  lemma LowerBoundInside(ms: seq<TimeMark>, t: Time)
    requires WellFormed(ms)
    ensures LowerBound(ms, t, 0) < |ms|
  {
    assert !Less(ms[|ms| - 1].time, t);
  }

  function Added(ms: seq<TimeMark>, m: TimeMark): seq<TimeMark> {
    var i := LowerBound(ms, m.time, 0);
    if i < |ms| && Close(ms[i].time, m.time) then ms[i := ms[i].AddToType(m.markType)]
    else if i > 0 && Close(ms[i - 1].time, m.time) then ms[i - 1 := ms[i - 1].AddToType(m.markType)]
    else ms[..i] + [m] + ms[i..]
  }

  /** Position of the mark that holds the bits of `m` after it was added. */
  function Holder(ms: seq<TimeMark>, m: TimeMark): nat {
    var i := LowerBound(ms, m.time, 0);
    if i > 0 && !(i < |ms| && Close(ms[i].time, m.time)) && Close(ms[i - 1].time, m.time) then i - 1 else i
  }

  /** Adding either ors the bits into one mark or inserts one mark; everything else stays where it is. */
  lemma AddedShape(ms: seq<TimeMark>, m: TimeMark)
    requires WellFormed(ms)
    ensures var h, out := Holder(ms, m), Added(ms, m);
            && h < |out|
            && ((exists k: nat :: k < |ms| && Close(ms[k].time, m.time)) <==> |out| == |ms|)
            && (|out| == |ms| ==> out == ms[h := ms[h].AddToType(m.markType)] && Close(ms[h].time, m.time))
            && (|out| != |ms| ==>
                  && h < |ms| && out == ms[..h] + [m] + ms[h..]
                  && (forall j | 0 <= j < h :: Less(ms[j].time, m.time)) && !Less(ms[h].time, m.time))
  {
    LowerBoundInside(ms, m.time);
    var i := LowerBound(ms, m.time, 0);
    if exists k: nat :: k < |ms| && Close(ms[k].time, m.time) {
      var k: nat :| k < |ms| && Close(ms[k].time, m.time);
      if k < i - 1 {
        assert Precedes(ms[k].time, ms[i - 1].time);
      } else if k > i {
        assert Precedes(ms[i].time, ms[k].time);
      }
    }
  }

  lemma AddKeepsOrder(ms: seq<TimeMark>, m: TimeMark)
    requires WellFormed(ms) && m.markType <= EVERY_TYPE
    ensures WellFormed(Added(ms, m))
  {
    AddedShape(ms, m);
    var h, out := Holder(ms, m), Added(ms, m);
    var s :| 0 <= s < |ms| && ms[s] == START;
    if |out| == |ms| {
      assert out[s] == START;
      forall i, j | 0 <= i < j < |out|
        ensures Precedes(out[i].time, out[j].time)
      {
        assert Precedes(ms[i].time, ms[j].time);
      }
    } else {
      assert out[if s < h then s else s + 1] == START;
      forall i, j | 0 <= i < j < |out|
        ensures Precedes(out[i].time, out[j].time)
      {
        InsertedPrecedes(ms, m, i, j);
      }
    }
  }

  lemma InsertedPrecedes(ms: seq<TimeMark>, m: TimeMark, i: nat, j: nat)
    requires WellFormed(ms) && |Added(ms, m)| != |ms| && i < j < |Added(ms, m)|
    ensures Precedes(Added(ms, m)[i].time, Added(ms, m)[j].time)
  {
    AddedShape(ms, m);
    var h := Holder(ms, m);
    var a, b := if i < h then i else i - 1, if j < h then j else j - 1;
    if i == h {
      assert !Close(ms[b].time, m.time);
      assert h < b ==> Precedes(ms[h].time, ms[b].time);
    } else if j == h {
      assert !Close(ms[a].time, m.time);
    } else {
      assert Precedes(ms[a].time, ms[b].time);
    }
  }

  // ---------------------------------------------------------------- the database against the marks that were asked for

  predicate SamePlace(a: Time, b: Time) {
    a == b || Close(a, b)
  }

  /** Some mark of the database carries all bits of `a` at the place of `a`. */
  ghost predicate Covered(ms: seq<TimeMark>, a: TimeMark) {
    exists k: nat :: k < |ms| && SamePlace(ms[k].time, a.time) && a.markType <= ms[k].markType
  }

  /** The mark stands at a requested time and each of its bits was requested at its place. */
  ghost predicate Justified(k: TimeMark, added: seq<TimeMark>) {
    && (exists a :: a in added && a.time == k.time)
    && forall b | b in k.markType :: exists a :: a in added && b in a.markType && SamePlace(k.time, a.time)
  }

  ghost predicate Represents(ms: seq<TimeMark>, added: seq<TimeMark>) {
    && (forall a | a in added :: Covered(ms, a))
    && (forall k | k in ms && k != START && k != STOP :: Justified(k, added))
  }

  function AddAll(added: seq<TimeMark>): seq<TimeMark>
    decreases |added|
  {
    if added == [] then [START, STOP]
    else Added(AddAll(added[..|added| - 1]), added[|added| - 1])
  }

  lemma CoveredStays(ms: seq<TimeMark>, m: TimeMark, a: TimeMark)
    requires WellFormed(ms) && Covered(ms, a)
    ensures Covered(Added(ms, m), a)
  {
    AddedShape(ms, m);
    var h, out := Holder(ms, m), Added(ms, m);
    var k: nat :| k < |ms| && SamePlace(ms[k].time, a.time) && a.markType <= ms[k].markType;
    var n := if |out| == |ms| || k < h then k else k + 1;
    assert SamePlace(out[n].time, a.time) && a.markType <= out[n].markType;
  }

  lemma JustifiedStays(k: TimeMark, added: seq<TimeMark>, m: TimeMark)
    requires Justified(k, added)
    ensures Justified(k, added + [m])
  {
    var more := added + [m];
    var a :| a in added && a.time == k.time;
    assert a in more;
    forall b | b in k.markType
      ensures exists a :: a in more && b in a.markType && SamePlace(k.time, a.time)
    {
      var c :| c in added && b in c.markType && SamePlace(k.time, c.time);
      assert c in more;
    }
  }

  lemma JustifiedGrows(k: TimeMark, added: seq<TimeMark>, m: TimeMark)
    requires Justified(k, added) && Close(k.time, m.time)
    ensures Justified(k.AddToType(m.markType), added + [m])
  {
    JustifiedStays(k, added, m);
    assert m in added + [m];
    var n := k.AddToType(m.markType);
    forall b | b in n.markType
      ensures exists a :: a in added + [m] && b in a.markType && SamePlace(n.time, a.time)
    {
      if b in k.markType {
        var c :| c in added + [m] && b in c.markType && SamePlace(k.time, c.time);
      }
    }
  }

  lemma AddRepresents(ms: seq<TimeMark>, added: seq<TimeMark>, m: TimeMark)
    requires WellFormed(ms) && Represents(ms, added)
    ensures Represents(Added(ms, m), added + [m])
  {
    AddedShape(ms, m);
    var h, out, more := Holder(ms, m), Added(ms, m), added + [m];
    forall a | a in more
      ensures Covered(out, a)
    {
      if a in added {
        CoveredStays(ms, m, a);
      } else {
        assert SamePlace(out[h].time, a.time) && a.markType <= out[h].markType;
      }
    }
    forall k | k in out && k != START && k != STOP
      ensures Justified(k, more)
    {
      if k in ms {
        JustifiedStays(k, added, m);
      } else if |out| == |ms| {
        assert k == out[h] && ms[h] in ms;
        JustifiedGrows(ms[h], added, m);
      } else {
        assert k == m && m in more;
      }
    }
  }

  /** After any adds the marks are ordered and apart, and hold exactly the requested bits up to two epsilons. */
  lemma {:induction false} DatabaseRepresentsAdds(added: seq<TimeMark>)
    requires forall a | a in added :: a.markType <= EVERY_TYPE
    ensures WellFormed(AddAll(added)) && Represents(AddAll(added), added)
    decreases |added|
  {
    if added == [] {
      assert [START, STOP][0] == START;
    } else {
      var less, m := added[..|added| - 1], added[|added| - 1];
      assert added == less + [m];
      DatabaseRepresentsAdds(less);
      AddKeepsOrder(AddAll(less), m);
      AddRepresents(AddAll(less), less, m);
    }
  }

  /** A finite mark is stored at its own time unless a mark at a different time is close to it. */
  lemma ExactPlaceIff(ms: seq<TimeMark>, m: TimeMark)
    requires WellFormed(ms) && m.time.Fin?
    ensures (exists k :: k in Added(ms, m) && k.time == m.time && m.markType <= k.markType)
       <==> (forall k | k in ms :: Close(k.time, m.time) ==> k.time == m.time)
  {
    if forall k | k in ms :: Close(k.time, m.time) ==> k.time == m.time {
      AddedShape(ms, m);
      var h, out := Holder(ms, m), Added(ms, m);
      assert ms[h] in ms;
      assert out[h] in out && out[h].time == m.time && m.markType <= out[h].markType;
    } else {
      var k :| k in ms && Close(k.time, m.time) && k.time != m.time;
      var i: nat :| i < |ms| && ms[i] == k;
      forall n | n in Added(ms, m)
        ensures n.time != m.time
      {
        var j: nat :| j < |Added(ms, m)| && Added(ms, m)[j] == n;
        Displaced(ms, m, i, j);
      }
    }
  }

  /** A mark that is not stored at its own time, since an older one is too close. */
  lemma MarkMoves()
    ensures var ms, m := [START, TimeMark(Fin(1.0), {0}), STOP], TimeMark(Fin(1.0000000000000001), {1});
            && WellFormed(ms) && ms == AddAll([TimeMark(Fin(1.0), {0})])
            && Added(ms, m) == [START, TimeMark(Fin(1.0), {0, 1}), STOP]
  {
    var ms, m := [START, TimeMark(Fin(1.0), {0}), STOP], TimeMark(Fin(1.0000000000000001), {1});
    assert ms[0] == START;
    var one := [TimeMark(Fin(1.0), {0})];
    assert one[..0] == [] && AddAll(one) == Added([START, STOP], one[0]);
    assert LowerBound([START, STOP], Fin(1.0), 1) == 1;
    assert LowerBound(ms, m.time, 1) == LowerBound(ms, m.time, 2) == 2;
    assert Added(ms, m) == ms[1 := ms[1].AddToType({1})];
    assert {0} + {1} == {0, 1};
  }

  lemma Displaced(ms: seq<TimeMark>, m: TimeMark, i: nat, j: nat)
    requires WellFormed(ms) && i < |ms| && Close(ms[i].time, m.time) && ms[i].time != m.time
    requires j < |Added(ms, m)|
    ensures Added(ms, m)[j].time != m.time
  {
    AddedShape(ms, m);
    assert |Added(ms, m)| == |ms| && Added(ms, m)[j].time == ms[j].time;
    assert i < j ==> Precedes(ms[i].time, ms[j].time);
    assert j < i ==> Precedes(ms[j].time, ms[i].time);
  }

  // ---------------------------------------------------------------- queries

  predicate Comes(m: TimeMark, c: Clock, mask: MarkType) {
    Lt(c.t, m.time) && m.Matches(mask)
  }

  predicate Passed(m: TimeMark, c: Clock, mask: MarkType) {
    Ge(c.t, m.time) && m.Matches(mask)
  }

  /** `r` is the first position of a matching mark after the clock. */
  ghost predicate IsNext(ms: seq<TimeMark>, c: Clock, mask: MarkType, r: nat) {
    r < |ms| && Comes(ms[r], c, mask) && forall j | 0 <= j < r :: !Comes(ms[j], c, mask)
  }

  /** `r` is the last position of a matching mark not after the clock. */
  ghost predicate IsLast(ms: seq<TimeMark>, c: Clock, mask: MarkType, r: nat) {
    r < |ms| && Passed(ms[r], c, mask) && forall j | r < j < |ms| :: !Passed(ms[j], c, mask)
  }

  /** First coming mark from position `i` on. */
  function FirstComing(ms: seq<TimeMark>, c: Clock, mask: MarkType, i: nat): (r: nat)
    requires i <= |ms|
    ensures i <= r <= |ms| && (forall j | i <= j < r :: !Comes(ms[j], c, mask)) && (r < |ms| ==> Comes(ms[r], c, mask))
    decreases |ms| - i
  {
    if i == |ms| || Comes(ms[i], c, mask) then i else FirstComing(ms, c, mask, i + 1)
  }

  /** Time of the first mark after the clock that carries all bits of the mask. */
  function NextMarkTime(ms: seq<TimeMark>, t: Time, mask: MarkType): Time
    requires WellFormed(ms) && mask <= EVERY_TYPE
  {
    var c := Clock(t, Fin(0.0), PosInf);
    assert Comes(ms[|ms| - 1], c, mask);
    ms[FirstComing(ms, c, mask, 0)].time
  }

  lemma NextMarkTimeIs(ms: seq<TimeMark>, c: Clock, mask: MarkType, r: nat)
    requires WellFormed(ms) && mask <= EVERY_TYPE && IsNext(ms, c, mask, r)
    ensures NextMarkTime(ms, c.t, mask) == ms[r].time
  {
    var d := Clock(c.t, Fin(0.0), PosInf);
    assert Comes(ms[r], d, mask);
    var f := FirstComing(ms, d, mask, 0);
    assert Comes(ms[f], c, mask);
  }

  /** Where the downward scan starts. */
  function ScanStart(ms: seq<TimeMark>, c: Clock): nat
    requires c.t.Fin? && c.dt.Fin?
  {
    LowerBound(ms, Fin(c.t.t + 0.01 * c.dt.t), 0)
  }

  /** The latest time that a clock at `t` takes for passed. */
  function Latest(t: real): real {
    if t < 0.0 then t - t / 281474976710656.0 else t * 281474976710656.0 / 281474976710655.0
  }

  lemma LatestIs(t: real, o: real)
    ensures Lt(Fin(t), Fin(o)) <==> o > Latest(t)
    ensures Latest(t) >= t
  {
  }

  /** The mark after the one at which the downward scan starts is in the future. */
  predicate ScanReaches(c: Clock)
    requires c.t.Fin? && c.dt.Fin?
  {
    Lt(c.t, Fin(c.t.t + 0.01 * c.dt.t + 1.0 / 2251799813685248.0))
  }

  /** What the downward scan finds. */
  ghost predicate Found(ms: seq<TimeMark>, c: Clock, mask: MarkType, r: nat)
    requires c.t.Fin? && c.dt.Fin?
  {
    && r < |ms| && Passed(ms[r], c, mask) && r <= ScanStart(ms, c)
    && forall j | r < j <= ScanStart(ms, c) && j < |ms| :: !Passed(ms[j], c, mask)
  }

  lemma NoneBehindScan(ms: seq<TimeMark>, c: Clock, j: nat)
    requires WellFormed(ms) && c.t.Fin? && c.dt.Fin? && ScanReaches(c) && ScanStart(ms, c) < j < |ms|
    ensures !Ge(c.t, ms[j].time)
  {
    var i := ScanStart(ms, c);
    assert Precedes(ms[i].time, ms[j].time);
    if ms[j].time.Fin? {
      assert ms[i].time.Fin?;
      LatestIs(c.t.t, ms[j].time.t);
      LatestIs(c.t.t, c.t.t + 0.01 * c.dt.t + 1.0 / 2251799813685248.0);
    }
  }

  /** Two marks at least as far from the clock as the start of the scan, of which the scan sees the first one only. */
  function Behind(c: Clock, first: MarkType, second: real): seq<TimeMark>
    requires c.t.Fin? && c.dt.Fin?
  {
    [START, TimeMark(Fin(c.t.t + 0.01 * c.dt.t), first), TimeMark(Fin(second), {0}), STOP]
  }

  lemma BehindScan(c: Clock, first: MarkType, second: real)
    requires c.t.Fin? && c.dt.Fin? && second >= c.t.t + 0.01 * c.dt.t + 1.0 / 2251799813685248.0
    ensures WellFormed(Behind(c, first, second)) && ScanStart(Behind(c, first, second), c) == 1
  {
    var ms, s := Behind(c, first, second), Fin(c.t.t + 0.01 * c.dt.t);
    assert ms[0] == START;
    assert LowerBound(ms, s, 1) == 1;
  }

  /** Which clocks always get the last passed mark from the downward scan. */
  lemma LastExactIff(c: Clock)
    requires c.t.Fin? && c.dt.Fin?
    ensures ScanReaches(c) <==>
            forall ms: seq<TimeMark>, mask, r: nat | WellFormed(ms) && mask <= EVERY_TYPE && Found(ms, c, mask, r) :: IsLast(ms, c, mask, r)
  {
    if ScanReaches(c) {
      forall ms: seq<TimeMark>, mask, r: nat | WellFormed(ms) && mask <= EVERY_TYPE && Found(ms, c, mask, r)
        ensures IsLast(ms, c, mask, r)
      {
        FoundIsLast(ms, c, mask, r);
      }
    } else {
      var second := c.t.t + 0.01 * c.dt.t + 1.0 / 2251799813685248.0;
      var ms := Behind(c, {0}, second);
      BehindScan(c, {0}, second);
      LatestIs(c.t.t, second);
      LatestIs(c.t.t, c.t.t + 0.01 * c.dt.t);
      assert Found(ms, c, {0}, 1) && Passed(ms[2], c, {0});
      assert !IsLast(ms, c, {0}, 1);
    }
  }

  lemma FoundIsLast(ms: seq<TimeMark>, c: Clock, mask: MarkType, r: nat)
    requires WellFormed(ms) && c.t.Fin? && c.dt.Fin? && ScanReaches(c) && Found(ms, c, mask, r)
    ensures IsLast(ms, c, mask, r)
  {
    forall j | r < j < |ms|
      ensures !Passed(ms[j], c, mask)
    {
      if j > ScanStart(ms, c) {
        NoneBehindScan(ms, c, j);
      }
    }
  }

  /** A matching passed mark lies in the last step. */
  ghost predicate Current(ms: seq<TimeMark>, c: Clock, mask: MarkType)
    requires c.t.Fin? && c.dt.Fin?
  {
    exists m :: m in ms && m.time.Fin? && Passed(m, c, mask) && Lt(c.t, Fin(m.time.t + c.dt.t))
  }

  /** A step is no step, or the scan reaches everything. */
  predicate CurrentKnown(c: Clock)
    requires c.t.Fin? && c.dt.Fin?
  {
    c.dt.t <= 0.0 || ScanReaches(c)
  }

  /** The mark the scan finds tells whether some mark is current. */
  lemma FoundDecides(ms: seq<TimeMark>, c: Clock, mask: MarkType, r: nat)
    requires WellFormed(ms) && c.t.Fin? && c.dt.Fin? && CurrentKnown(c) && Found(ms, c, mask, r)
    ensures Lt(c.t, Plus(ms[r].time, c.dt)) <==> Current(ms, c, mask)
  {
    if ScanReaches(c) {
      FoundIsLast(ms, c, mask, r);
      CurrentIff(ms, c, mask, r);
    } else {
      forall m | m in ms && Passed(m, c, mask)
        ensures !Lt(c.t, Plus(m.time, c.dt))
      {
        PassedWithoutStep(c, m.time);
      }
      assert ms[r] in ms;
    }
  }

  lemma PassedWithoutStep(c: Clock, t: Time)
    requires c.t.Fin? && c.dt.Fin? && c.dt.t <= 0.0 && Ge(c.t, t)
    ensures !Lt(c.t, Plus(t, c.dt))
  {
    if t.Fin? {
      LtMonotone(c.t.t, t.t + c.dt.t, t.t);
    }
  }

  /** Which clocks always learn whether a mark is current. */
  lemma CurrentExactIff(c: Clock)
    requires c.t.Fin? && c.dt.Fin?
    ensures CurrentKnown(c) <==>
            forall ms: seq<TimeMark>, mask, r: nat | WellFormed(ms) && mask <= EVERY_TYPE && Found(ms, c, mask, r) ::
              Lt(c.t, Plus(ms[r].time, c.dt)) <==> Current(ms, c, mask)
  {
    if CurrentKnown(c) {
      forall ms: seq<TimeMark>, mask, r: nat | WellFormed(ms) && mask <= EVERY_TYPE && Found(ms, c, mask, r)
        ensures Lt(c.t, Plus(ms[r].time, c.dt)) <==> Current(ms, c, mask)
      {
        FoundDecides(ms, c, mask, r);
      }
    } else {
      var second := Latest(c.t.t);
      var ms := Behind(c, {}, second);
      LatestIs(c.t.t, c.t.t + 0.01 * c.dt.t + 1.0 / 2251799813685248.0);
      BehindScan(c, {}, second);
      LatestIs(c.t.t, second);
      LatestIs(c.t.t, second + c.dt.t);
      assert Found(ms, c, {0}, 0);
      assert ms[2] in ms && Passed(ms[2], c, {0}) && Current(ms, c, {0});
      assert !Lt(c.t, Plus(ms[0].time, c.dt));
    }
  }

  class TimeMarks {
    var nextMarkType: nat
    var marks: seq<TimeMark>

    ghost predicate Valid()
      reads this
    {
      WellFormed(marks) && nextMarkType <= WORD
    }

    /** The three predefined types take the first bits: fixed time, output, change of boundary condition. */
    constructor ()
      ensures Valid() && marks == AddAll([]) && nextMarkType == 3
    {
      marks := [START, STOP];
      nextMarkType := 3;
      new;
      assert marks[0] == START;
    }

    /** A fresh single bit; there is none left after a whole word of them. */
    method NewMarkType() returns (r: Option<MarkType>)
      requires Valid()
      modifies this`nextMarkType
      ensures Valid()
      ensures old(nextMarkType) < WORD ==> r == Some({old(nextMarkType)}) && nextMarkType == old(nextMarkType) + 1
      ensures old(nextMarkType) == WORD ==> r == None && nextMarkType == WORD
    {
      if nextMarkType == WORD {
        return None;
      }
      r := Some({nextMarkType});
      nextMarkType := nextMarkType + 1;
    }

    method Add(mark: TimeMark)
      requires Valid() && mark.markType <= EVERY_TYPE
      modifies this`marks
      ensures Valid() && marks == Added(old(marks), mark)
    {
      AddKeepsOrder(marks, mark);
      LowerBoundInside(marks, mark.time);
      var firstGe := LowerBound(marks, mark.time, 0);
      if Close(marks[firstGe].time, mark.time) {
        marks := marks[firstGe := marks[firstGe].AddToType(mark.markType)];
        return;
      }
      if firstGe != 0 {
        var previous := firstGe - 1;
        if Close(marks[previous].time, mark.time) {
          marks := marks[previous := marks[previous].AddToType(mark.markType)];
          return;
        }
      }
      marks := marks[..firstGe] + [mark] + marks[firstGe..];
    }

    /** The scan ends at a stopper at the latest and finds the least matching mark after the clock. */
    method Next(c: Clock, mask: MarkType) returns (r: nat)
      requires Valid() && mask <= EVERY_TYPE && !c.t.NegInf?
      ensures IsNext(marks, c, mask, r)
    {
      LowerBoundInside(marks, c.t);
      r := LowerBound(marks, c.t, 0);
      while !Lt(c.t, marks[r].time) || !marks[r].Matches(mask)
        invariant r < |marks| && forall j | 0 <= j < r :: !Comes(marks[j], c, mask)
        decreases |marks| - r
      {
        r := r + 1;
      }
    }

    /** The scan finds the greatest matching mark not after the clock, if it reaches all of them. */
    method Last(c: Clock, mask: MarkType) returns (r: nat)
      requires Valid() && mask <= EVERY_TYPE && c.t.Fin? && c.dt.Fin?
      ensures Found(marks, c, mask, r)
      ensures ScanReaches(c) ==> IsLast(marks, c, mask, r)
    {
      ghost var s :| 0 <= s < |marks| && marks[s] == START;
      LowerBoundInside(marks, Fin(c.t.t + 0.01 * c.dt.t));
      r := LowerBound(marks, Fin(c.t.t + 0.01 * c.dt.t), 0);
      assert r < s ==> Precedes(marks[r].time, marks[s].time);
      while !Ge(c.t, marks[r].time) || !marks[r].Matches(mask)
        invariant s <= r < |marks| && r <= ScanStart(marks, c)
        invariant forall j | r < j <= ScanStart(marks, c) && j < |marks| :: !Passed(marks[j], c, mask)
        decreases r
      {
        r := r - 1;
      }
      if ScanReaches(c) {
        FoundIsLast(marks, c, mask, r);
      }
    }

    /** True exactly when a matching mark lies in the current time interval, open on the left. */
    method IsCurrent(c: Clock, mask: MarkType) returns (b: bool)
      requires Valid() && mask <= EVERY_TYPE && (c.endTime != PosInf ==> c.t.Fin? && c.dt.Fin?)
      ensures c.endTime == PosInf ==> b == (c.t == PosInf)
      ensures c.endTime != PosInf && CurrentKnown(c) ==> (b <==> Current(marks, c, mask))
    {
      if c.endTime == PosInf {
        return c.t == PosInf;
      }
      var r := Last(c, mask);
      b := Lt(c.t, Plus(marks[r].time, c.dt));
      if CurrentKnown(c) {
        FoundDecides(marks, c, mask, r);
      }
    }
  }

  /** The last passed mark decides for all passed marks whether one lies in the current interval. */
  lemma CurrentIff(ms: seq<TimeMark>, c: Clock, mask: MarkType, r: nat)
    requires WellFormed(ms) && c.t.Fin? && c.dt.Fin? && IsLast(ms, c, mask, r)
    ensures Lt(c.t, Plus(ms[r].time, c.dt)) <==> Current(ms, c, mask)
  {
    forall m | m in ms && m.time.Fin? && Passed(m, c, mask) && Lt(c.t, Fin(m.time.t + c.dt.t))
      ensures Lt(c.t, Plus(ms[r].time, c.dt))
    {
      var j: nat :| j < |ms| && ms[j] == m;
      if j != r {
        assert Precedes(ms[j].time, ms[r].time);
        LtMonotone(c.t.t, m.time.t + c.dt.t, ms[r].time.t + c.dt.t);
      }
    }
    if Lt(c.t, Plus(ms[r].time, c.dt)) {
      assert ms[r] in ms && ms[r].time.Fin?;
    }
  }

  /** A clock for which the downward scan starts too early and misses a mark. */
  lemma LastMissesBelowTolerance()
    ensures var ms := [START, TimeMark(Fin(1.0), {0}), TimeMark(Fin(1.000000000000001), {0}), STOP];
            var c := Clock(Fin(1.0), Fin(0.0), Fin(2.0));
            WellFormed(ms) && ScanStart(ms, c) == 1 && Passed(ms[1], c, {0}) && !IsLast(ms, c, {0}, 1)
  {
    var ms := [START, TimeMark(Fin(1.0), {0}), TimeMark(Fin(1.000000000000001), {0}), STOP];
    var c := Clock(Fin(1.0), Fin(0.0), Fin(2.0));
    assert ms[0] == START;
    assert LowerBound(ms, Fin(1.0), 1) == 1;
    assert Passed(ms[2], c, {0});
  }
}
