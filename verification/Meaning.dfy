/** What storage says about a document, told apart from the reading; and that reading gives exactly the storage that says it. */
module Meaning {
  import opened Options
  import opened JsonPath
  import opened InputTypes
  import opened Elaborator

  // ---------------------------------------------------------------- where references lead

  /** The place a cursor stands for once all references are followed. */
  function Target(root: JNode, c: Cursor): (d: Result<Cursor, PathError>)
    requires IsAt(root, c)
    ensures d.Ok? ==> IsAt(root, d.value) && RefOf(Head(root, d.value)) == Ok(None)
    decreases RefsLeft(root, c)
  {
    match RefOf(Head(root, c))
    case Err(e) => Err(e)
    case Ok(None) => Ok(c)
    case Ok(Some(ref)) =>
      match FindRef(root, c, ref)
      case Err(e) => Err(e)
      case Ok(d) =>
        FollowingUsesUp(root, c, ref, d);
        Target(root, d)
  }

  /** A chain of references that ends at a place without one leads there. */
  lemma {:induction false} ChainLeadsToTarget(root: JNode, cs: seq<Cursor>)
    requires IsChain(root, cs) && RefOf(Head(root, cs[|cs| - 1])) == Ok(None)
    ensures Target(root, cs[0]) == Ok(cs[|cs| - 1])
    decreases |cs|
  {
    if |cs| > 1 {
      assert LeadsTo(root, cs[0], cs[1]);
      forall i | 0 <= i < |cs| - 2
        ensures LeadsTo(root, cs[1..][i], cs[1..][i + 1])
      {
        assert LeadsTo(root, cs[i + 1], cs[i + 2]);
      }
      ChainLeadsToTarget(root, cs[1..]);
    }
  }

  // ---------------------------------------------------------------- values

  /** `s` is the 32-bit integer with the low bits of `i`. */
  predicate Wrapped(i: int, s: int) {
    IsInt(s) && (s - i) % INT_RANGE == 0
  }

  /** The value listed for the name, the first one if it is listed twice. */
  ghost predicate Lists(names: seq<Choice>, name: string, value: int) {
    exists i :: 0 <= i < |names| && names[i] == Choice(name, value) && forall j | 0 <= j < i :: names[j].name != name
  }

  ghost predicate ScalarSays(ty: Type, h: JNode, st: Storage) {
    match ty
    case TInteger(_, _) => h.JInt? && st.SInt? && Wrapped(h.i, st.i)
    case TDouble(_, _) => st.SDouble? && if h.JInt? then exists s :: Wrapped(h.i, s) && st.d == s as real else h.JReal? && st.d == h.r
    case TBool => h.JBool? && st == SBool(h.b)
    case TSelection(names) => h.JStr? && st.SInt? && Lists(names, h.s, st.i)
    case _ => h.JStr? && st == SString(h.s)
  }

  /** The storage says what the document says at a cursor, taken as a value of the type. */
  ghost predicate Says(t: Table, root: JNode, c: Cursor, ty: Type, st: Storage)
    requires t.Valid() && t.Knows(ty) && IsAt(root, c)
    decreases st, 3
  {
    Target(root, c).Ok? && SaysAt(t, root, Target(root, c).value, ty, st)
  }

  /** The same where no reference is. */
  ghost predicate SaysAt(t: Table, root: JNode, c: Cursor, ty: Type, st: Storage)
    requires t.Valid() && t.Knows(ty) && IsAt(root, c)
    decreases st, 2
  {
    if Head(root, c).JNull? then st == SNull
    else
      match ty
      case TRecord(id) => RecordSays(t, root, c, id, st)
      case TAbstract(id) => exists j: nat :: Chosen(t, root, c, id, j) && RecordSays(t, root, c, t.abstracts[id].children[j], st)
      case TArray(_, _, _) => ArraySays(t, root, c, ty, st)
      case _ => ScalarSays(ty, Head(root, c), st)
  }

  /** The descendant is the one that the key TYPE names, or the default one if the key is not there. */
  ghost predicate Chosen(t: Table, root: JNode, c: Cursor, id: nat, j: nat)
    requires t.Valid() && id < |t.abstracts| && IsAt(root, c)
    ensures Chosen(t, root, c, id, j) ==> j < |t.abstracts[id].children| && t.abstracts[id].children[j] < |t.records|
  {
    assert t.AbstractFits(id, t.Rank());
    var h := Head(root, c);
    && j < |t.abstracts[id].children|
    && var name := t.records[t.abstracts[id].children[j]].name;
       if h.JObj? && Child(h, Key("TYPE")).Some? then
         var d := Target(root, Down(root, c, Key("TYPE")));
         d.Ok? && Head(root, d.value) == JStr(name)
       else t.abstracts[id].default == Some(name)
  }

  /** Slot by slot what is given, and defaults for what is not; a value that is no object fills the key of the conversion. */
  ghost predicate RecordSays(t: Table, root: JNode, c: Cursor, id: nat, st: Storage)
    requires t.Valid() && id < |t.records| && IsAt(root, c)
    decreases st, 1
  {
    && st.SArray? && |st.items| == |t.records[id].keys| && (Head(root, c).JObj? || t.records[id].auto.Some?)
    && forall k | 0 <= k < |st.items| :: KeySays(t, root, c, id, k, st.items[k])
  }

  ghost predicate KeySays(t: Table, root: JNode, c: Cursor, id: nat, k: nat, st: Storage)
    requires t.Valid() && id < |t.records| && IsAt(root, c) && k < |t.records[id].keys|
    decreases st, 4
  {
    assert t.RecordFits(id, t.Rank());
    var key, h := t.records[id].keys[k], Head(root, c);
    assert key in t.records[id].keys;
    if h.JObj? && Child(h, Key(key.name)).Some? then Says(t, root, Down(root, c, Key(key.name)), key.keyType, st)
    else if !h.JObj? && t.records[id].auto == Some(k) then SaysAt(t, root, c, key.keyType, st)
    else
      match key.default
      case Obligatory => false
      case AtDeclaration(text) => FromDefault(t, text, key.keyType) == Some(st)
      case _ => st == SNull
  }

  /** Item by item; a value that is no array is the only item. */
  ghost predicate ArraySays(t: Table, root: JNode, c: Cursor, ty: Type, st: Storage)
    requires t.Valid() && ty.TArray? && t.Knows(ty) && IsAt(root, c)
    decreases st, 1
  {
    && st.SArray?
    && if Head(root, c).JArr? then
         && |st.items| == |Head(root, c).items|
         && forall k | 0 <= k < |st.items| :: Says(t, root, Down(root, c, Index(k)), ty.item, st.items[k])
       else |st.items| == 1 && SaysAt(t, root, c, ty.item, st.items[0])
  }

  // ---------------------------------------------------------------- scalars

  lemma {:induction false} FoundFirst(names: seq<Choice>, name: string, value: int)
    ensures NameToInt(names, name) == Some(value) <==> Lists(names, name, value)
  {
    if names != [] {
      FoundFirst(names[1..], name, value);
      if names[0].name == name {
        if names[0].value == value {
          assert names[0] == Choice(name, value);
        }
      } else {
        if Lists(names[1..], name, value) {
          var i :| 0 <= i < |names[1..]| && names[1..][i] == Choice(name, value) && forall j | 0 <= j < i :: names[1..][j].name != name;
          assert names[i + 1] == Choice(name, value);
          assert forall j | 0 < j < i + 1 :: names[j] == names[1..][j - 1];
        }
        if Lists(names, name, value) {
          var i :| 0 <= i < |names| && names[i] == Choice(name, value) && forall j | 0 <= j < i :: names[j].name != name;
          assert names[1..][i - 1] == Choice(name, value);
          assert forall j | 0 <= j < i - 1 :: names[1..][j] == names[j + 1];
        }
      }
    }
  }

  lemma WrapIff(i: int, s: int)
    ensures Wrapped(i, s) <==> s == WrapInt(i)
  {
    var q := (i + INT_RANGE / 2) / INT_RANGE;
    assert WrapInt(i) == i - q * INT_RANGE;
    assert (WrapInt(i) - i) % INT_RANGE == 0;
    if Wrapped(i, s) {
      var p := (s - i) / INT_RANGE;
      assert s - WrapInt(i) == (p + q) * INT_RANGE;
    }
  }

  /** A scalar is accepted exactly if its kind and its bounds are right, and stored with its value. */
  lemma ScalarReadIff(t: Table, ty: Type, h: JNode, st: Storage)
    requires t.Valid() && !ty.TRecord? && !ty.TAbstract? && !ty.TArray?
    ensures ScalarFromNode(ty, h) == Some(st) <==> ScalarSays(ty, h, st) && Conforms(t, st, ty)
  {
    match ty
    case TInteger(_, _) =>
      if h.JInt? && st.SInt? {
        WrapIff(h.i, st.i);
      }
    case TDouble(_, _) =>
      if h.JInt? {
        WrapIff(h.i, WrapInt(h.i));
        forall s | Wrapped(h.i, s) ensures s == WrapInt(h.i) { WrapIff(h.i, s); }
      }
    case TSelection(names) =>
      if h.JStr? && st.SInt? {
        FoundFirst(names, h.s, st.i);
      }
    case _ =>
  }

  // ---------------------------------------------------------------- reading

  /** Reading at a cursor is reading where it leads. */
  lemma {:induction false} ReadAtTarget(t: Table, root: JNode, c: Cursor, ty: Type)
    requires t.Valid() && t.Knows(ty) && IsAt(root, c)
    ensures match Target(root, c)
            case Ok(d) => MakeStorage(t, root, c, ty) == MakeStorage(t, root, d, ty)
            case Err(_) => MakeStorage(t, root, c, ty).Err?
    decreases RefsLeft(root, c)
  {
    hide MakeRecord, MakeAbstract, MakeArray, ScalarFromNode;
    var ref := RefOf(Head(root, c));
    if ref.Ok? && ref.value.Some? {
      var next := FindRef(root, c, ref.value.value);
      if next.Ok? {
        FollowingUsesUp(root, c, ref.value.value, next.value);
        ReadAtTarget(t, root, next.value, ty);
      }
    }
  }

  /** Following references does not bring more of them. */
  lemma {:induction false} TargetUsesUp(root: JNode, c: Cursor)
    requires IsAt(root, c) && Target(root, c).Ok?
    ensures Target(root, c).value == c || RefsLeft(root, Target(root, c).value) < RefsLeft(root, c)
    decreases RefsLeft(root, c)
  {
    var ref := RefOf(Head(root, c));
    if ref.value.Some? {
      var d := FindRef(root, c, ref.value.value).value;
      FollowingUsesUp(root, c, ref.value.value, d);
      TargetUsesUp(root, d);
    }
  }

  /** Reading without a reference, by the type. */
  lemma ReadPlainly(t: Table, root: JNode, c: Cursor, ty: Type)
    requires t.Valid() && t.Knows(ty) && IsAt(root, c) && RefOf(Head(root, c)) == Ok(None)
    ensures Head(root, c).JNull? ==> MakeStorage(t, root, c, ty) == Ok(SNull)
    ensures !Head(root, c).JNull? && ty.TRecord? ==> MakeStorage(t, root, c, ty) == MakeRecord(t, root, c, ty.id)
    ensures !Head(root, c).JNull? && ty.TAbstract? ==> MakeStorage(t, root, c, ty) == MakeAbstract(t, root, c, ty.id)
    ensures !Head(root, c).JNull? && ty.TArray? ==> MakeStorage(t, root, c, ty) == MakeArray(t, root, c, ty)
    ensures !Head(root, c).JNull? && !ty.TRecord? && !ty.TAbstract? && !ty.TArray? ==>
              var s := ScalarFromNode(ty, Head(root, c)); MakeStorage(t, root, c, ty) == if s.Some? then Ok(s.value) else Err(WrongValue)
  {
    hide MakeRecord, MakeAbstract, MakeArray, ScalarFromNode;
  }

  lemma NullConforms(t: Table, ty: Type)
    requires t.Valid() && t.Knows(ty)
    ensures Conforms(t, SNull, ty)
  {
  }

  /**
   * Reading succeeds with some storage exactly if the storage says what the document says and conforms to the type: whatever is
   * stored is what was given, and whatever fits is accepted.
   */
  lemma {:induction false} ReadIff(t: Table, root: JNode, c: Cursor, ty: Type, st: Storage)
    requires t.Valid() && t.Knows(ty) && IsAt(root, c)
    ensures MakeStorage(t, root, c, ty) == Ok(st) <==> Says(t, root, c, ty, st) && Conforms(t, st, ty)
    decreases RefsLeft(root, c), Height(Head(root, c)), RankOn(t, Head(root, c), ty), 3, 0
  {
    hide Conforms, MakeStorage, SaysAt, Height, RankOn, RefsLeft, Target, NodeAt, RefOf, Table.Valid, Table.Knows;
    ReadAtTarget(t, root, c, ty);
    if Target(root, c).Ok? {
      TargetUsesUp(root, c);
      ReadAtIff(t, root, Target(root, c).value, ty, st);
    }
  }

  lemma {:induction false} ReadAtIff(t: Table, root: JNode, c: Cursor, ty: Type, st: Storage)
    requires t.Valid() && t.Knows(ty) && IsAt(root, c) && RefOf(Head(root, c)) == Ok(None)
    ensures MakeStorage(t, root, c, ty) == Ok(st) <==> SaysAt(t, root, c, ty, st) && Conforms(t, st, ty)
    decreases RefsLeft(root, c), Height(Head(root, c)), RankOn(t, Head(root, c), ty), 2, 0
  {
    hide Conforms, MakeStorage, Height, RankOn, RefsLeft, RecordSays, ArraySays, ScalarSays, Chosen;
    ReadPlainly(t, root, c, ty);
    if Head(root, c).JNull? {
      NullConforms(t, ty);
    } else {
      match ty
      case TRecord(id) => RecordReadIff(t, root, c, id, st);
      case TAbstract(id) => AbstractReadIff(t, root, c, id, st);
      case TArray(_, _, _) => ArrayReadIff(t, root, c, ty, st);
      case _ => ScalarReadIff(t, ty, Head(root, c), st);
    }
  }

  // ---------------------------------------------------------------- records

  /** The slots from `k` on. */
  ghost predicate SlotsSay(t: Table, root: JNode, c: Cursor, id: nat, k: nat, items: seq<Storage>)
    requires t.Valid() && id < |t.records| && IsAt(root, c) && k <= |t.records[id].keys|
  {
    && |items| == |t.records[id].keys| - k
    && forall j | 0 <= j < |items| :: SlotSays(t, root, c, id, k + j, items[j])
  }

  ghost predicate SlotSays(t: Table, root: JNode, c: Cursor, id: nat, k: nat, st: Storage)
    requires t.Valid() && id < |t.records| && IsAt(root, c) && k < |t.records[id].keys|
  {
    KeySays(t, root, c, id, k, st) && KeyConforms(t, st, id, k)
  }

  lemma SlotsSplit(t: Table, root: JNode, c: Cursor, id: nat, k: nat, items: seq<Storage>)
    requires t.Valid() && id < |t.records| && IsAt(root, c) && k < |t.records[id].keys|
    ensures SlotsSay(t, root, c, id, k, items)
       <==> items != [] && SlotSays(t, root, c, id, k, items[0]) && SlotsSay(t, root, c, id, k + 1, items[1..])
  {
    hide SlotSays;
    if items != [] {
      if SlotsSay(t, root, c, id, k, items) {
        assert SlotSays(t, root, c, id, k + 0, items[0]);
        forall j | 0 <= j < |items[1..]|
          ensures SlotSays(t, root, c, id, k + 1 + j, items[1..][j])
        {
          assert SlotSays(t, root, c, id, k + (j + 1), items[j + 1]);
        }
      }
      if SlotSays(t, root, c, id, k, items[0]) && SlotsSay(t, root, c, id, k + 1, items[1..]) {
        forall j | 0 <= j < |items|
          ensures SlotSays(t, root, c, id, k + j, items[j])
        {
          if j > 0 {
            assert SlotSays(t, root, c, id, k + 1 + (j - 1), items[1..][j - 1]);
          }
        }
      }
    }
  }

  lemma SlotsMakeRecord(t: Table, root: JNode, c: Cursor, id: nat, items: seq<Storage>)
    requires t.Valid() && id < |t.records| && IsAt(root, c) && (Head(root, c).JObj? || t.records[id].auto.Some?)
    ensures SlotsSay(t, root, c, id, 0, items)
       <==> RecordSays(t, root, c, id, SArray(items)) && Conforms(t, SArray(items), TRecord(id))
  {
    hide KeySays;
    assert t.RecordFits(id, t.Rank());
    if SlotsSay(t, root, c, id, 0, items) {
      forall k | 0 <= k < |items|
        ensures KeySays(t, root, c, id, k, items[k]) && KeyConforms(t, items[k], id, k)
      {
        assert SlotSays(t, root, c, id, 0 + k, items[k]);
      }
      KeysMakeRecord(t, items, id);
    }
    if RecordSays(t, root, c, id, SArray(items)) && Conforms(t, SArray(items), TRecord(id)) {
      forall k | 0 <= k < |items|
        ensures SlotSays(t, root, c, id, 0 + k, items[k])
      {
        assert t.records[id].keys[k] in t.records[id].keys;
        assert Conforms(t, SArray(items).items[k], t.records[id].keys[k].keyType);
      }
    }
  }

  lemma RecordIsArray(t: Table, root: JNode, c: Cursor, id: nat, st: Storage)
    requires t.Valid() && id < |t.records| && IsAt(root, c) && (MakeRecord(t, root, c, id) == Ok(st) || RecordSays(t, root, c, id, st))
    ensures st.SArray? && st == SArray(st.items)
  {
  }

  lemma {:induction false} RecordReadIff(t: Table, root: JNode, c: Cursor, id: nat, st: Storage)
    requires t.Valid() && id < |t.records| && IsAt(root, c)
    requires Head(root, c).JObj? || RefOf(Head(root, c)) == Ok(None)
    ensures MakeRecord(t, root, c, id) == Ok(st) <==> RecordSays(t, root, c, id, st) && Conforms(t, st, TRecord(id))
    decreases RefsLeft(root, c), Height(Head(root, c)), RankOn(t, Head(root, c), TRecord(id)), 1, 0
  {
    hide Conforms, MakeStorage, MakeKeys, MakeAutoKeys, Height, RankOn, RefsLeft, KeySays, SlotsSay;
    if st.SArray? {
      if Head(root, c).JObj? {
        SlotsReadIff(t, root, c, id, 0, st.items);
        SlotsMakeRecord(t, root, c, id, st.items);
      } else if t.records[id].auto.Some? {
        AutoSlotsReadIff(t, root, c, id, 0, st.items);
        SlotsMakeRecord(t, root, c, id, st.items);
      }
    }
  }

  lemma KeysUnfold(t: Table, root: JNode, c: Cursor, id: nat, k: nat, items: seq<Storage>)
    requires t.Valid() && id < |t.records| && IsAt(root, c) && Head(root, c).JObj? && k < |t.records[id].keys|
    ensures MakeKeys(t, root, c, id, k) == Ok(items)
       <==> items != [] && MakeKey(t, root, c, id, k) == Ok(items[0]) && MakeKeys(t, root, c, id, k + 1) == Ok(items[1..])
  {
    hide MakeKey;
    var first, rest := MakeKey(t, root, c, id, k), MakeKeys(t, root, c, id, k + 1);
    if first.Ok? && rest.Ok? {
      assert ([first.value] + rest.value)[1..] == rest.value;
      assert items != [] && items[0] == first.value && items[1..] == rest.value ==> items == [first.value] + rest.value;
    }
  }

  lemma {:induction false} SlotsReadIff(t: Table, root: JNode, c: Cursor, id: nat, k: nat, items: seq<Storage>)
    requires t.Valid() && id < |t.records| && IsAt(root, c) && Head(root, c).JObj? && k <= |t.records[id].keys|
    ensures MakeKeys(t, root, c, id, k) == Ok(items) <==> SlotsSay(t, root, c, id, k, items)
    decreases RefsLeft(root, c), Height(Head(root, c)), RankOn(t, Head(root, c), TRecord(id)), 0, |t.records[id].keys| - k
  {
    hide MakeKey, MakeStorage, Height, RankOn, RefsLeft, SlotSays;
    if k < |t.records[id].keys| {
      KeysUnfold(t, root, c, id, k, items);
      SlotsSplit(t, root, c, id, k, items);
      hide MakeKeys, SlotsSay;
      if items != [] {
        SlotReadIff(t, root, c, id, k, items[0]);
        SlotsReadIff(t, root, c, id, k + 1, items[1..]);
      }
    }
  }

  lemma {:induction false} SlotReadIff(t: Table, root: JNode, c: Cursor, id: nat, k: nat, st: Storage)
    requires t.Valid() && id < |t.records| && IsAt(root, c) && Head(root, c).JObj? && k < |t.records[id].keys|
    ensures MakeKey(t, root, c, id, k) == Ok(st) <==> SlotSays(t, root, c, id, k, st)
    decreases RefsLeft(root, c), Height(Head(root, c)), RankOn(t, Head(root, c), TRecord(id)), 0, 0
  {
    hide Conforms, MakeStorage, Says, SaysAt, Refs, Height, RankOn, FromDefault, Target, RefOf;
    var key := t.records[id].keys[k];
    assert t.RecordFits(id, t.Rank());
    assert key in t.records[id].keys;
    if Child(Head(root, c), Key(key.name)).Some? {
      ChildSmaller(Head(root, c), Key(key.name));
      ReadIff(t, root, Down(root, c, Key(key.name)), key.keyType, st);
    } else {
      DefaultSlot(t, id, k, st);
    }
  }

  /** Defaults and missing values conform. */
  lemma DefaultSlot(t: Table, id: nat, k: nat, st: Storage)
    requires t.Valid() && id < |t.records| && k < |t.records[id].keys|
    ensures t.Knows(t.records[id].keys[k].keyType)
    ensures var key := t.records[id].keys[k];
            || (key.default.AtDeclaration? && FromDefault(t, key.default.text, key.keyType) == Some(st)) || st == SNull
            ==> KeyConforms(t, st, id, k)
  {
    var key := t.records[id].keys[k];
    assert t.RecordFits(id, t.Rank());
    assert key in t.records[id].keys;
    if key.default.AtDeclaration? && FromDefault(t, key.default.text, key.keyType) == Some(st) {
      DefaultConforms(t, key.default.text, key.keyType);
    }
    NullConforms(t, key.keyType);
  }

  lemma AutoUnfold(t: Table, root: JNode, c: Cursor, id: nat, k: nat, items: seq<Storage>)
    requires t.Valid() && id < |t.records| && IsAt(root, c) && !Head(root, c).JObj? && t.records[id].auto.Some? && k < |t.records[id].keys|
    ensures t.Knows(t.records[id].keys[k].keyType)
    ensures var key, auto := t.records[id].keys[k], t.records[id].auto == Some(k);
            && (!auto ==> key.default.AtDeclaration?)
            && (MakeAutoKeys(t, root, c, id, k) == Ok(items)
                <==> items != [] && MakeAutoKeys(t, root, c, id, k + 1) == Ok(items[1..])
                     && if auto then MakeStorage(t, root, c, key.keyType) == Ok(items[0])
                        else FromDefault(t, key.default.text, key.keyType) == Some(items[0]))
  {
    hide MakeStorage, FromDefault;
    assert t.RecordFits(id, t.Rank());
    assert t.records[id].keys[k] in t.records[id].keys;
    var key, rest := t.records[id].keys[k], MakeAutoKeys(t, root, c, id, k + 1);
    forall first: Storage, more: seq<Storage>
      ensures ([first] + more)[1..] == more && ([first] + more)[0] == first
    {
    }
    if items != [] {
      assert items == [items[0]] + items[1..];
    }
  }

  lemma {:induction false} AutoSlotsReadIff(t: Table, root: JNode, c: Cursor, id: nat, k: nat, items: seq<Storage>)
    requires t.Valid() && id < |t.records| && IsAt(root, c) && !Head(root, c).JObj? && RefOf(Head(root, c)) == Ok(None)
    requires t.records[id].auto.Some? && k <= |t.records[id].keys|
    ensures MakeAutoKeys(t, root, c, id, k) == Ok(items) <==> SlotsSay(t, root, c, id, k, items)
    decreases RefsLeft(root, c), Height(Head(root, c)), RankOn(t, Head(root, c), TRecord(id)), 0, |t.records[id].keys| - k
  {
    hide MakeStorage, Height, RefsLeft, FromDefault;
    if k < |t.records[id].keys| {
      AutoUnfold(t, root, c, id, k, items);
      SlotsSplit(t, root, c, id, k, items);
      hide MakeAutoKeys, SlotsSay, SaysAt, Conforms;
      if items != [] {
        AutoSlotsReadIff(t, root, c, id, k + 1, items[1..]);
        assert t.RecordFits(id, t.Rank());
        assert t.records[id].keys[k] in t.records[id].keys;
        if t.records[id].auto == Some(k) {
          ReadAtIff(t, root, c, t.records[id].keys[k].keyType, items[0]);
        } else {
          DefaultSlot(t, id, k, items[0]);
        }
      }
    }
  }

  // ---------------------------------------------------------------- arrays

  /** The items from `k` on. */
  ghost predicate ItemsSay(t: Table, root: JNode, c: Cursor, item: Type, k: nat, items: seq<Storage>)
    requires t.Valid() && t.Knows(item) && IsAt(root, c) && Head(root, c).JArr? && k <= |Head(root, c).items|
  {
    && |items| == |Head(root, c).items| - k
    && forall j | 0 <= j < |items| :: ItemSays(t, root, c, item, k + j, items[j])
  }

  ghost predicate ItemSays(t: Table, root: JNode, c: Cursor, item: Type, k: nat, st: Storage)
    requires t.Valid() && t.Knows(item) && IsAt(root, c) && Head(root, c).JArr? && k < |Head(root, c).items|
  {
    Says(t, root, Down(root, c, Index(k)), item, st) && Conforms(t, st, item)
  }

  lemma ItemsSplit(t: Table, root: JNode, c: Cursor, item: Type, k: nat, items: seq<Storage>)
    requires t.Valid() && t.Knows(item) && IsAt(root, c) && Head(root, c).JArr? && k < |Head(root, c).items|
    ensures ItemsSay(t, root, c, item, k, items)
       <==> items != [] && ItemSays(t, root, c, item, k, items[0]) && ItemsSay(t, root, c, item, k + 1, items[1..])
  {
    hide ItemSays;
    if items != [] {
      if ItemsSay(t, root, c, item, k, items) {
        assert ItemSays(t, root, c, item, k + 0, items[0]);
        forall j | 0 <= j < |items[1..]|
          ensures ItemSays(t, root, c, item, k + 1 + j, items[1..][j])
        {
          assert ItemSays(t, root, c, item, k + (j + 1), items[j + 1]);
        }
      }
      if ItemSays(t, root, c, item, k, items[0]) && ItemsSay(t, root, c, item, k + 1, items[1..]) {
        forall j | 0 <= j < |items|
          ensures ItemSays(t, root, c, item, k + j, items[j])
        {
          if j > 0 {
            assert ItemSays(t, root, c, item, k + 1 + (j - 1), items[1..][j - 1]);
          }
        }
      }
    }
  }

  lemma ItemsUnfold(t: Table, root: JNode, c: Cursor, ty: Type, k: nat, items: seq<Storage>)
    requires t.Valid() && ty.TArray? && t.Knows(ty) && IsAt(root, c) && Head(root, c).JArr? && k < |Head(root, c).items|
    ensures MakeItems(t, root, c, ty, k) == Ok(items)
       <==> items != [] && MakeStorage(t, root, Down(root, c, Index(k)), ty.item) == Ok(items[0])
            && MakeItems(t, root, c, ty, k + 1) == Ok(items[1..])
  {
    hide MakeStorage;
    var first, rest := MakeStorage(t, root, Down(root, c, Index(k)), ty.item), MakeItems(t, root, c, ty, k + 1);
    if first.Ok? && rest.Ok? {
      assert ([first.value] + rest.value)[1..] == rest.value;
      assert items != [] && items[0] == first.value && items[1..] == rest.value ==> items == [first.value] + rest.value;
    }
  }

  lemma {:induction false} ItemsReadIff(t: Table, root: JNode, c: Cursor, ty: Type, k: nat, items: seq<Storage>)
    requires t.Valid() && ty.TArray? && t.Knows(ty) && IsAt(root, c) && Head(root, c).JArr? && k <= |Head(root, c).items|
    ensures MakeItems(t, root, c, ty, k) == Ok(items) <==> ItemsSay(t, root, c, ty.item, k, items)
    decreases RefsLeft(root, c), Height(Head(root, c)), RankOn(t, Head(root, c), ty), 0, |Head(root, c).items| - k
  {
    hide MakeStorage, Height, RankOn, RefsLeft, Conforms, Says, MakeItems, ItemsSay;
    if k == |Head(root, c).items| {
      NoMoreItems(t, root, c, ty, items);
    } else {
      ItemsUnfold(t, root, c, ty, k, items);
      ItemsSplit(t, root, c, ty.item, k, items);
      DownIsSmaller(root, c, Index(k));
      if items != [] {
        ReadIff(t, root, Down(root, c, Index(k)), ty.item, items[0]);
        ItemsReadIff(t, root, c, ty, k + 1, items[1..]);
      }
    }
  }

  lemma NoMoreItems(t: Table, root: JNode, c: Cursor, ty: Type, items: seq<Storage>)
    requires t.Valid() && ty.TArray? && t.Knows(ty) && IsAt(root, c) && Head(root, c).JArr?
    ensures var k := |Head(root, c).items|; MakeItems(t, root, c, ty, k) == Ok(items) <==> ItemsSay(t, root, c, ty.item, k, items)
  {
    hide MakeStorage;
  }

  lemma DownIsSmaller(root: JNode, c: Cursor, step: Step)
    requires IsAt(root, c) && Child(Head(root, c), step).Some?
    ensures var d := Down(root, c, step); RefsLeft(root, d) == RefsLeft(root, c) && Height(Head(root, d)) < Height(Head(root, c))
  {
    ChildSmaller(Head(root, c), step);
  }

  lemma ItemsMakeArray(t: Table, root: JNode, c: Cursor, ty: Type, items: seq<Storage>)
    requires t.Valid() && ty.TArray? && t.Knows(ty) && IsAt(root, c) && Head(root, c).JArr?
    ensures SizeFits(ty, |Head(root, c).items|) && ItemsSay(t, root, c, ty.item, 0, items)
       <==> ArraySays(t, root, c, ty, SArray(items)) && Conforms(t, SArray(items), ty)
  {
    hide Says;
    var st := SArray(items);
    if SizeFits(ty, |Head(root, c).items|) && ItemsSay(t, root, c, ty.item, 0, items) {
      forall k | 0 <= k < |items|
        ensures Says(t, root, Down(root, c, Index(k)), ty.item, items[k]) && Conforms(t, items[k], ty.item)
      {
        assert ItemSays(t, root, c, ty.item, 0 + k, items[k]);
      }
    }
    if ArraySays(t, root, c, ty, st) && Conforms(t, st, ty) {
      forall k | 0 <= k < |items|
        ensures ItemSays(t, root, c, ty.item, 0 + k, items[k])
      {
        assert Says(t, root, Down(root, c, Index(k)), ty.item, st.items[k]) && Conforms(t, st.items[k], ty.item);
      }
    }
  }

  lemma {:induction false} ArrayReadIff(t: Table, root: JNode, c: Cursor, ty: Type, st: Storage)
    requires t.Valid() && ty.TArray? && t.Knows(ty) && IsAt(root, c) && RefOf(Head(root, c)) == Ok(None)
    ensures MakeArray(t, root, c, ty) == Ok(st) <==> ArraySays(t, root, c, ty, st) && Conforms(t, st, ty)
    decreases RefsLeft(root, c), Height(Head(root, c)), RankOn(t, Head(root, c), ty), 1, 0
  {
    if st.SArray? {
      if Head(root, c).JArr? {
        ItemsReadIff(t, root, c, ty, 0, st.items);
        ItemsMakeArray(t, root, c, ty, st.items);
        hide MakeStorage, MakeItems, ItemsSay, ArraySays, Conforms;
      } else if |st.items| == 1 {
        ReadAtIff(t, root, c, ty.item, st.items[0]);
        OnlyItem(t, st, ty);
        hide MakeStorage, Conforms, SaysAt;
        assert st == SArray([st.items[0]]);
      }
    }
  }

  lemma OnlyItem(t: Table, st: Storage, ty: Type)
    requires t.Valid() && ty.TArray? && t.Knows(ty) && st.SArray? && |st.items| == 1
    ensures Conforms(t, st, ty) <==> SizeFits(ty, 1) && Conforms(t, st.items[0], ty.item)
  {
  }

  // ---------------------------------------------------------------- abstract records

  /** A name is that of descendant `j` exactly if it is looked up to `j`. */
  lemma NameOfChild(t: Table, id: nat, j: nat, name: string)
    requires t.Valid() && id < |t.abstracts| && j < |t.abstracts[id].children|
    ensures t.AbstractFits(id, t.Rank()) && t.ChildrenKnown(id)
    ensures name == t.records[t.abstracts[id].children[j]].name
       <==> NameToInt(t.Choices(id, |t.abstracts[id].children|), name) == Some(j)
  {
    assert t.AbstractFits(id, t.Rank());
    hide NameToInt;
    OwnChoice(t, id, j);
    t.ChoiceOf(id, |t.abstracts[id].children|, name);
  }

  lemma SelectionFromNode(names: seq<Choice>, h: JNode, j: int)
    ensures ScalarFromNode(TSelection(names), h) == Some(SInt(j)) <==> h.JStr? && NameToInt(names, h.s) == Some(j)
  {
  }

  /** What the key TYPE is read to. */
  lemma TypeRead(t: Table, root: JNode, c: Cursor, id: nat, j: nat)
    requires t.Valid() && id < |t.abstracts| && IsAt(root, c) && j < |t.abstracts[id].children|
    ensures t.AbstractFits(id, t.Rank())
    ensures MakeStorage(t, root, c, t.TypeSelection(id)) == Ok(SInt(j))
       <==> Target(root, c).Ok? && Head(root, Target(root, c).value) == JStr(t.records[t.abstracts[id].children[j]].name)
  {
    assert t.AbstractFits(id, t.Rank());
    hide MakeStorage, ScalarFromNode, NameToInt, Target, NodeAt, RefOf, Ranks.Of;
    NameOfChild(t, id, j, t.records[t.abstracts[id].children[j]].name);
    ReadAtTarget(t, root, c, t.TypeSelection(id));
    if Target(root, c).Ok? {
      ReadPlainly(t, root, Target(root, c).value, t.TypeSelection(id));
      var h := Head(root, Target(root, c).value);
      SelectionFromNode(t.Choices(id, |t.abstracts[id].children|), h, j);
      if h.JStr? {
        NameOfChild(t, id, j, h.s);
      }
    }
  }

  /** The descendant that the reading chooses. */
  lemma ChosenIsRead(t: Table, root: JNode, c: Cursor, id: nat, j: nat)
    requires t.Valid() && id < |t.abstracts| && IsAt(root, c) && j < |t.abstracts[id].children|
    ensures t.AbstractFits(id, t.Rank())
    ensures Head(root, c).JObj? && Child(Head(root, c), Key("TYPE")).Some? ==>
              (Chosen(t, root, c, id, j)
               <==> MakeStorage(t, root, Down(root, c, Key("TYPE")), t.TypeSelection(id)) == Ok(SInt(j)))
    ensures !(Head(root, c).JObj? && Child(Head(root, c), Key("TYPE")).Some?) ==>
              (Chosen(t, root, c, id, j) <==> t.DefaultChild(id) == Some(t.abstracts[id].children[j]) && DefaultIndex(t, id) == Some(j))
  {
    hide MakeStorage, NameToInt, Target, NodeAt, RefOf, Ranks.Of;
    assert t.AbstractFits(id, t.Rank());
    if Head(root, c).JObj? && Child(Head(root, c), Key("TYPE")).Some? {
      TypeRead(t, root, Down(root, c, Key("TYPE")), id, j);
    } else if t.abstracts[id].default.Some? {
      NameOfChild(t, id, j, t.abstracts[id].default.value);
    }
  }

  /** The index of the default descendant. */
  ghost function DefaultIndex(t: Table, id: nat): Option<int>
    requires t.Valid() && id < |t.abstracts|
  {
    assert t.AbstractFits(id, t.Rank());
    var default := t.abstracts[id].default;
    if default.None? then None else NameToInt(t.Choices(id, |t.abstracts[id].children|), default.value)
  }

  lemma ChosenRecordRead(t: Table, root: JNode, c: Cursor, id: nat, j: nat)
    requires t.Valid() && id < |t.abstracts| && IsAt(root, c) && Chosen(t, root, c, id, j)
    ensures MakeAbstract(t, root, c, id) == MakeRecord(t, root, c, t.abstracts[id].children[j])
  {
    hide MakeStorage, MakeRecord, Chosen;
    ChosenIsRead(t, root, c, id, j);
  }

  lemma SomeChosen(t: Table, root: JNode, c: Cursor, id: nat) returns (j: nat)
    requires t.Valid() && id < |t.abstracts| && IsAt(root, c) && MakeAbstract(t, root, c, id).Ok?
    ensures Chosen(t, root, c, id, j)
  {
    hide MakeStorage, MakeRecord, Chosen;
    assert t.AbstractFits(id, t.Rank());
    if Head(root, c).JObj? && Child(Head(root, c), Key("TYPE")).Some? {
      j := MakeStorage(t, root, Down(root, c, Key("TYPE")), t.TypeSelection(id)).value.i;
    } else {
      var choices := t.Choices(id, |t.abstracts[id].children|);
      t.ChoiceOf(id, |choices|, t.abstracts[id].default.value);
      j := NameToInt(choices, t.abstracts[id].default.value).value;
    }
    ChosenIsRead(t, root, c, id, j);
  }

  lemma GivenKeySays(t: Table, root: JNode, c: Cursor, id: nat, k: nat, st: Storage)
    requires t.Valid() && id < |t.records| && IsAt(root, c) && k < |t.records[id].keys| && KeySays(t, root, c, id, k, st)
    requires Head(root, c).JObj? && Child(Head(root, c), Key(t.records[id].keys[k].name)).Some?
    ensures t.Knows(t.records[id].keys[k].keyType)
    ensures Says(t, root, Down(root, c, Key(t.records[id].keys[k].name)), t.records[id].keys[k].keyType, st)
  {
    assert t.RecordFits(id, t.Rank());
    assert t.records[id].keys[k] in t.records[id].keys;
  }

  lemma NameSays(t: Table, root: JNode, c: Cursor, ty: Type, name: string, st: Storage)
    requires t.Valid() && ty.TSelection? && IsAt(root, c) && Head(root, c) == JStr(name) && SaysAt(t, root, c, ty, st)
    ensures st.SInt? && Lists(ty.names, name, st.i)
  {
  }

  /** The first slot of the chosen descendant holds its own index. */
  lemma SlotZero(t: Table, root: JNode, c: Cursor, id: nat, j: nat, st: Storage)
    requires t.Valid() && id < |t.abstracts| && IsAt(root, c) && Chosen(t, root, c, id, j)
    requires RecordSays(t, root, c, t.abstracts[id].children[j], st)
    ensures st.SArray? && st.items != [] && st.items[0] == SInt(j)
  {
    assert t.AbstractFits(id, t.Rank());
    var child := t.abstracts[id].children[j];
    assert t.DescendantFits(id, child);
    OwnChoice(t, id, j);
    OwnName(t, id, j);
    assert KeySays(t, root, c, child, 0, st.items[0]);
    if Head(root, c).JObj? && Child(Head(root, c), Key("TYPE")).Some? {
      GivenKeySays(t, root, c, child, 0, st.items[0]);
      NameSays(t, root, Target(root, Down(root, c, Key("TYPE"))).value, t.TypeSelection(id), t.records[child].name, st.items[0]);
      FoundFirst(t.Choices(id, |t.abstracts[id].children|), t.records[child].name, st.items[0].i);
    }
  }

  lemma {:induction false} AbstractReadIff(t: Table, root: JNode, c: Cursor, id: nat, st: Storage)
    requires t.Valid() && id < |t.abstracts| && IsAt(root, c) && RefOf(Head(root, c)) == Ok(None)
    ensures MakeAbstract(t, root, c, id) == Ok(st)
       <==> (exists j: nat :: Chosen(t, root, c, id, j) && RecordSays(t, root, c, t.abstracts[id].children[j], st))
            && Conforms(t, st, TAbstract(id))
    decreases RefsLeft(root, c), Height(Head(root, c)), RankOn(t, Head(root, c), TAbstract(id)), 1, 0
  {
    if MakeAbstract(t, root, c, id) == Ok(st) {
      var j := SomeChosen(t, root, c, id);
      ChosenRecordRead(t, root, c, id, j);
      ChosenIsLower(t, root, c, id, j);
      RecordReadIff(t, root, c, t.abstracts[id].children[j], st);
      AbstractConforms(t, root, c, id);
    }
    if j: nat :| Chosen(t, root, c, id, j) && RecordSays(t, root, c, t.abstracts[id].children[j], st) {
      if Conforms(t, st, TAbstract(id)) {
        ChosenRecordRead(t, root, c, id, j);
        ChosenIsLower(t, root, c, id, j);
        SlotZero(t, root, c, id, j, st);
        DescendantOf(t, st, id, j);
        RecordReadIff(t, root, c, t.abstracts[id].children[j], st);
      }
    }
  }

  lemma DescendantOf(t: Table, st: Storage, id: nat, j: nat)
    requires t.Valid() && id < |t.abstracts| && j < |t.abstracts[id].children| && Conforms(t, st, TAbstract(id))
    requires st.SArray? && st.items != [] && st.items[0] == SInt(j)
    ensures t.abstracts[id].children[j] < |t.records| && Conforms(t, st, TRecord(t.abstracts[id].children[j]))
  {
    assert t.AbstractFits(id, t.Rank());
  }

  /** The chosen descendant is nearer to a leaf of the conversions. */
  lemma ChosenIsLower(t: Table, root: JNode, c: Cursor, id: nat, j: nat)
    requires t.Valid() && id < |t.abstracts| && IsAt(root, c) && Chosen(t, root, c, id, j)
    ensures RankOn(t, Head(root, c), TRecord(t.abstracts[id].children[j])) < RankOn(t, Head(root, c), TAbstract(id))
  {
    assert t.AbstractFits(id, t.Rank());
    if !Head(root, c).JObj? {
      assert t.records[t.abstracts[id].children[j]].name == t.abstracts[id].default.value;
    }
  }
}
