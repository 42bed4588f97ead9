/** Typed reading of storage, and the addresses of its parts. */
module Accessors {
  import opened Options
  import opened JsonPath
  import opened InputTypes
  import opened Elaborator
  import opened Meaning

  // ---------------------------------------------------------------- raw access

  datatype Fault = KindMismatch | OutOfRange | NullAccessor

  function GetItem(st: Storage, i: nat): Result<Storage, Fault> {
    if !st.SArray? then Err(KindMismatch) else if i >= |st.items| then Err(OutOfRange) else Ok(st.items[i])
  }

  function GetArraySize(st: Storage): Result<nat, Fault> {
    if st.SArray? then Ok(|st.items|) else Err(KindMismatch)
  }

  function GetInt(st: Storage): Result<int, Fault> {
    if st.SInt? then Ok(st.i) else Err(KindMismatch)
  }

  function GetDouble(st: Storage): Result<real, Fault> {
    if st.SDouble? then Ok(st.d) else Err(KindMismatch)
  }

  function GetBool(st: Storage): Result<bool, Fault> {
    if st.SBool? then Ok(st.b) else Err(KindMismatch)
  }

  function GetString(st: Storage): Result<string, Fault> {
    if st.SString? then Ok(st.s) else Err(KindMismatch)
  }

  /** What a typed read gives: a value, or an accessor to a record, an abstract record or an array. */
  datatype Reading =
    | IntValue(i: int)
    | DoubleValue(d: real)
    | BoolValue(b: bool)
    | StringValue(s: string)
    | Accessor(storage: Storage, accessType: Type)

  /** Reads storage at its declared type. */
  function Value(st: Storage, ty: Type): Result<Reading, Fault> {
    match ty
    case TInteger(_, _) => (match GetInt(st) case Ok(i) => Ok(IntValue(i)) case Err(e) => Err(e))
    case TSelection(_) => (match GetInt(st) case Ok(i) => Ok(IntValue(i)) case Err(e) => Err(e))
    case TDouble(_, _) => (match GetDouble(st) case Ok(d) => Ok(DoubleValue(d)) case Err(e) => Err(e))
    case TBool => (match GetBool(st) case Ok(b) => Ok(BoolValue(b)) case Err(e) => Err(e))
    case TString => (match GetString(st) case Ok(s) => Ok(StringValue(s)) case Err(e) => Err(e))
    case TFileName(_) => (match GetString(st) case Ok(s) => Ok(StringValue(s)) case Err(e) => Err(e))
    case _ => if st.SNull? then Err(NullAccessor) else Ok(Accessor(st, ty))
  }

  /** Dereferences an iterator into the parts of a record or an array. */
  function Deref(parent: Storage, i: nat, ty: Type): Result<Reading, Fault> {
    match GetItem(parent, i)
    case Err(e) => Err(e)
    case Ok(st) => Value(st, ty)
  }

  /** Whether an iterator points to something. */
  function IsSet(parent: Storage, i: nat): Result<bool, Fault> {
    match GetItem(parent, i)
    case Err(e) => Err(e)
    case Ok(st) => Ok(!st.SNull?)
  }

  /** The optional read: nothing if the slot is null. */
  function OptVal(parent: Storage, i: nat, ty: Type): Result<Option<Reading>, Fault> {
    match IsSet(parent, i)
    case Err(e) => Err(e)
    case Ok(false) => Ok(None)
    case Ok(true) => (match Deref(parent, i, ty) case Ok(v) => Ok(Some(v)) case Err(e) => Err(e))
  }

  /** The index of the descendant that an abstract record holds. */
  function TypeIndex(st: Storage): Result<int, Fault> {
    match GetItem(st, 0)
    case Err(e) => Err(e)
    case Ok(slot) => GetInt(slot)
  }

  // ---------------------------------------------------------------- reads of sound storage

  /** A read at the declared type fails exactly on null storage. */
  lemma ValueFaultsIff(t: Table, st: Storage, ty: Type)
    requires t.Valid() && t.Knows(ty) && Conforms(t, st, ty)
    ensures Value(st, ty).Err? <==> st == SNull
  {
  }

  /** The slot of a key is there and fits its type; reading it fails exactly when it is null, and the optional read never fails. */
  lemma KeyReadIsSafe(t: Table, st: Storage, id: nat, k: nat)
    requires t.Valid() && id < |t.records| && Conforms(t, st, TRecord(id)) && st != SNull && k < |t.records[id].keys|
    ensures GetItem(st, k).Ok? && t.Knows(t.records[id].keys[k].keyType)
    ensures var slot, ty := GetItem(st, k).value, t.records[id].keys[k].keyType;
            && Conforms(t, slot, ty) && IsSet(st, k) == Ok(slot != SNull) && OptVal(st, k, ty).Ok?
            && (OptVal(st, k, ty).value.None? <==> slot == SNull) && (Deref(st, k, ty).Err? <==> slot == SNull)
  {
    assert t.RecordFits(id, t.Rank());
    assert t.records[id].keys[k] in t.records[id].keys;
    ValueFaultsIff(t, st.items[k], t.records[id].keys[k].keyType);
  }

  /** Iteration over an array meets as many items as its size says, each of the item type. */
  lemma ItemReadIsSafe(t: Table, st: Storage, ty: Type, k: nat)
    requires t.Valid() && ty.TArray? && t.Knows(ty) && Conforms(t, st, ty) && st != SNull
    ensures GetArraySize(st).Ok? && ty.min <= GetArraySize(st).value <= ty.max
    ensures k < GetArraySize(st).value ==>
              && GetItem(st, k).Ok? && Conforms(t, GetItem(st, k).value, ty.item)
              && (Deref(st, k, ty.item).Err? <==> GetItem(st, k).value == SNull)
  {
    if k < |st.items| {
      ValueFaultsIff(t, st.items[k], ty.item);
    }
  }

  /** The type of an abstract record is that of one of its descendants, and the storage fits it. */
  lemma DescendantIsSafe(t: Table, st: Storage, id: nat)
    requires t.Valid() && id < |t.abstracts| && Conforms(t, st, TAbstract(id)) && st != SNull
    ensures TypeIndex(st).Ok? && 0 <= TypeIndex(st).value < |t.abstracts[id].children|
    ensures t.Knows(TRecord(t.abstracts[id].children[TypeIndex(st).value]))
    ensures Conforms(t, st, TRecord(t.abstracts[id].children[TypeIndex(st).value]))
  {
    assert t.AbstractFits(id, t.Rank());
  }

  /** Reading an obligatory key fails exactly when the document gives null for it. */
  lemma ObligatoryReadFaultsIff(t: Table, root: JNode, c: Cursor, id: nat, k: nat)
    requires t.Valid() && id < |t.records| && IsAt(root, c) && Head(root, c).JObj? && k < |t.records[id].keys|
    requires t.records[id].keys[k].default.Obligatory? || t.records[id].keys[k].default.AtDeclaration?
    requires MakeKey(t, root, c, id, k).Ok?
    ensures var key := t.records[id].keys[k];
            Value(MakeKey(t, root, c, id, k).value, key.keyType).Err?
            <==> Child(Head(root, c), Key(key.name)).Some? && Resolved(root, Down(root, c, Key(key.name))) == Ok(JNull)
  {
    assert t.RecordFits(id, t.Rank());
    assert t.records[id].keys[k] in t.records[id].keys;
    KeyReadConforms(t, root, c, id, k);
    NullSlotIff(t, root, c, id, k);
    ValueFaultsIff(t, MakeKey(t, root, c, id, k).value, t.records[id].keys[k].keyType);
  }

  /** A document that gives null for an obligatory number: it is read without an error, and reading the number fails. */
  lemma NullForObligatory()
    ensures var t := Table([RecordDef("r", [KeyDef("k", TInteger(0, 1), Obligatory)], None)], []);
            var root, c := JObj([Field("k", JNull)]), Cursor([], {});
            && t.Valid() && IsAt(root, c)
            && MakeStorage(t, root, c, TRecord(0)) == Ok(SArray([SNull])) && Deref(SArray([SNull]), 0, TInteger(0, 1)).Err?
  {
    var t := Table([RecordDef("r", [KeyDef("k", TInteger(0, 1), Obligatory)], None)], []);
    var root, c := JObj([Field("k", JNull)]), Cursor([], {});
    assert t.Fits(Ranks([0], []));
    assert Child(root, Key("k")) == Some(JNull);
    var d := Down(root, c, Key("k"));
    assert MakeStorage(t, root, d, TInteger(0, 1)) == Ok(SNull);
    assert MakeKey(t, root, c, 0, 0) == Ok(SNull);
    assert MakeKeys(t, root, c, 0, 1) == Ok([]);
    assert [SNull] + [] == [SNull];
    assert MakeKeys(t, root, c, 0, 0) == Ok([SNull]);
  }

  /** What is read is what the node of the document says. */
  ghost predicate ReadingSays(ty: Type, h: JNode, st: Storage, v: Reading) {
    match ty
    case TInteger(_, _) => h.JInt? && v.IntValue? && Wrapped(h.i, v.i)
    case TDouble(_, _) =>
      v.DoubleValue? && if h.JInt? then exists s :: Wrapped(h.i, s) && v.d == s as real else h.JReal? && v.d == h.r
    case TBool => h.JBool? && v == BoolValue(h.b)
    case TSelection(names) => h.JStr? && v.IntValue? && Lists(names, h.s, v.i)
    case TString => h.JStr? && v == StringValue(h.s)
    case TFileName(_) => h.JStr? && v == StringValue(h.s)
    case _ => v == Accessor(st, ty)
  }

  /** From the document to the program: a typed read gives the value the document has there, all references followed. */
  lemma ReadThrough(t: Table, root: JNode, c: Cursor, ty: Type)
    requires t.Valid() && t.Knows(ty) && IsAt(root, c) && MakeStorage(t, root, c, ty).Ok?
    ensures Target(root, c).Ok?
    ensures var h, st := Head(root, Target(root, c).value), MakeStorage(t, root, c, ty).value;
            && (Value(st, ty).Err? <==> h.JNull?)
            && (Value(st, ty).Ok? ==> ReadingSays(ty, h, st, Value(st, ty).value))
  {
    hide MakeStorage, Target, Conforms, Chosen, KeySays;
    var st := MakeStorage(t, root, c, ty).value;
    ReadIff(t, root, c, ty, st);
    ValueFaultsIff(t, st, ty);
  }

  /** Copies all items of an array; it fails exactly when one of them is null. */
  method CopyTo(t: Table, st: Storage, ty: Type) returns (out: Result<seq<Reading>, Fault>)
    requires t.Valid() && ty.TArray? && t.Knows(ty) && Conforms(t, st, ty) && st != SNull
    ensures out.Err? <==> SNull in st.items
    ensures out.Ok? ==> |out.value| == |st.items| && forall k | 0 <= k < |st.items| :: Ok(out.value[k]) == Value(st.items[k], ty.item)
  {
    var copied: seq<Reading> := [];
    var i := 0;
    while i != |st.items|
      invariant 0 <= i <= |st.items| == GetArraySize(st).value && |copied| == i && SNull !in st.items[..i]
      invariant forall k | 0 <= k < i :: Ok(copied[k]) == Value(st.items[k], ty.item)
      decreases |st.items| - i
    {
      ItemReadIsSafe(t, st, ty, i);
      match Deref(st, i, ty.item)
      case Err(e) => {
        return Err(e);
      }
      case Ok(v) => {
        copied := copied + [v];
        assert st.items[..i + 1] == st.items[..i] + [st.items[i]];
        i := i + 1;
      }
    }
    assert st.items[..|st.items|] == st.items;
    return Ok(copied);
  }

  // ---------------------------------------------------------------- addresses

  /** The storage that a path of indices leads to. */
  function StorageAt(st: Storage, path: seq<nat>): Result<Storage, Fault> {
    if path == [] then Ok(st)
    else
      match GetItem(st, path[0])
      case Err(e) => Err(e)
      case Ok(item) => StorageAt(item, path[1..])
  }

  /** The declared type of a part, an abstract record replaced by the descendant that is stored. */
  function Concrete(t: Table, st: Storage, ty: Type): (u: Type)
    requires t.Valid() && t.Knows(ty) && Conforms(t, st, ty) && st != SNull
    ensures t.Knows(u) && Conforms(t, st, u) && !u.TAbstract? && (!ty.TAbstract? ==> u == ty)
  {
    if ty.TAbstract? then
      DescendantIsSafe(t, st, ty.id);
      TRecord(t.abstracts[ty.id].children[TypeIndex(st).value])
    else ty
  }

  /** One step of an address: the type of the part and its text. */
  function PartOf(t: Table, st: Storage, ty: Type, i: nat): (r: (Type, Step))
    requires t.Valid() && t.Knows(ty) && Conforms(t, st, ty) && st.SArray? && i < |st.items|
    ensures t.Knows(r.0) && Conforms(t, st.items[i], r.0)
  {
    var u := Concrete(t, st, ty);
    match u
    case TRecord(id) =>
      KeyReadIsSafe(t, st, id, i);
      (t.records[id].keys[i].keyType, Key(t.records[id].keys[i].name))
    case TArray(item, _, _) =>
      ItemReadIsSafe(t, st, u, i);
      (item, Index(i))
  }

  /** The JSON steps of a path of indices. */
  function StepsOf(t: Table, st: Storage, ty: Type, path: seq<nat>): (steps: seq<Step>)
    requires t.Valid() && t.Knows(ty) && Conforms(t, st, ty) && StorageAt(st, path).Ok?
    ensures |steps| == |path|
  {
    if path == [] then []
    else
      var (partType, step) := PartOf(t, st, ty, path[0]);
      [step] + StepsOf(t, st.items[path[0]], partType, path[1..])
  }

  function TypeAt(t: Table, st: Storage, ty: Type, path: seq<nat>): (u: Type)
    requires t.Valid() && t.Knows(ty) && Conforms(t, st, ty) && StorageAt(st, path).Ok?
    ensures t.Knows(u)
  {
    if path == [] then ty else TypeAt(t, st.items[path[0]], PartOf(t, st, ty, path[0]).0, path[1..])
  }

  /** An address object: its place below its parent, down from a root storage. */
  class Address {
    const root: Storage
    const rootType: Type
    const parent: Address?
    const order: nat
    const storage: Storage
    ghost const path: seq<nat>

    constructor (root_: Storage, rootType_: Type)
      ensures Valid() && path == [] && root == root_ && rootType == rootType_
    {
      root, rootType, parent, order, storage, path := root_, rootType_, null, 0, root_, [];
    }

    constructor Down(up: Address, i: nat)
      requires up.Valid() && GetItem(up.storage, i).Ok?
      ensures Valid() && path == up.path + [i] && root == up.root && rootType == up.rootType
    {
      root, rootType, parent, order := up.root, up.rootType, up, i;
      storage := GetItem(up.storage, i).value;
      path := up.path + [i];
      new;
      assert path[..|path| - 1] == up.path;
      StorageBelow(up.root, up.path, i);
    }

    ghost predicate Valid()
      decreases |path|
    {
      && StorageAt(root, path) == Ok(storage)
      && (parent == null <==> path == [])
      && (parent != null ==>
            && parent.root == root && parent.rootType == rootType
            && path[..|path| - 1] == parent.path && order == path[|path| - 1] && parent.Valid())
    }

    /** The indices on the way up to the root. */
    method PathUp() returns (up: seq<nat>)
      requires Valid()
      ensures Reversed(up) == path
    {
      up := [];
      var a: Address := this;
      while a.parent != null
        invariant a.Valid() && a.path + Reversed(up) == path
        decreases |a.path|
      {
        ReversedMore(up, a.order);
        assert a.path == a.path[..|a.path| - 1] + [a.order];
        up := up + [a.order];
        a := a.parent;
      }
      assert Reversed(up) == path;
    }

    /** Follows the parents up, then builds the address down along the types. */
    method MakeFullAddress(t: Table) returns (address: string)
      requires Valid() && t.Valid() && t.Knows(rootType) && Conforms(t, root, rootType)
      ensures address == Str(StepsOf(t, root, rootType, path))
    {
      var up := PathUp();
      if |up| == 0 {
        return "/";
      }
      address := AddressDown(t, root, rootType, up);
    }
  }

  /** Builds an address down along the types; `up` lists the indices from the last to the first. */
  method AddressDown(t: Table, root: Storage, rootType: Type, up: seq<nat>) returns (address: string)
    requires t.Valid() && t.Knows(rootType) && Conforms(t, root, rootType) && StorageAt(root, Reversed(up)).Ok?
    ensures address == Body(StepsOf(t, root, rootType, Reversed(up)))
  {
    hide Conforms, Reversed, PartOf, Concrete, Body, StepText, StepsOf, StorageAt, TypeIndex;
    var st, ty := root, rootType;
    var i := |up| - 1;
    address := "";
    ghost var steps: seq<Step> := [];
    assert up[..i + 1] == up;
    EmptyBody();
    while i >= 0
      invariant -1 <= i < |up| && t.Knows(ty) && Conforms(t, st, ty) && StorageAt(st, Reversed(up[..i + 1])).Ok?
      invariant steps + StepsOf(t, st, ty, Reversed(up[..i + 1])) == StepsOf(t, root, rootType, Reversed(up))
      invariant address == Body(steps)
      decreases i, if ty.TAbstract? then 1 else 0
    {
      ReversedSuffix(up, i);
      StepsSplit(t, st, ty, up[i], Reversed(up[..i]));
      if ty.TAbstract? {
        ConcreteSteps(t, st, ty.id, Reversed(up[..i + 1]));
        ty := TRecord(t.abstracts[ty.id].children[TypeIndex(st).value]);
      } else {
        var (partType, step) := PartOf(t, st, ty, up[i]);
        BodyBelow(steps, step);
        address := address + "/" + StepText(step);
        steps := steps + [step];
        st, ty := st.items[up[i]], partType;
        i := i - 1;
      }
    }
    ReversedNothing(up);
    NoSteps(t, st, ty);
    assert steps == StepsOf(t, root, rootType, Reversed(up));
  }

  lemma EmptyBody()
    ensures Body([]) == ""
  {
  }

  lemma ReversedNothing(up: seq<nat>)
    ensures Reversed(up[..0]) == []
  {
  }

  lemma NoSteps(t: Table, st: Storage, ty: Type)
    requires t.Valid() && t.Knows(ty) && Conforms(t, st, ty)
    ensures StorageAt(st, []) == Ok(st) && StepsOf(t, st, ty, []) == []
  {
  }

  lemma StepsSplit(t: Table, st: Storage, ty: Type, i: nat, rest: seq<nat>)
    requires t.Valid() && t.Knows(ty) && Conforms(t, st, ty) && StorageAt(st, [i] + rest).Ok?
    ensures st.SArray? && i < |st.items| && StorageAt(st.items[i], rest).Ok?
    ensures var (partType, step) := PartOf(t, st, ty, i);
            StepsOf(t, st, ty, [i] + rest) == [step] + StepsOf(t, st.items[i], partType, rest)
  {
    hide Conforms, PartOf;
    assert ([i] + rest)[1..] == rest;
  }

  /** An abstract record has the steps of the descendant it holds. */
  lemma ConcreteSteps(t: Table, st: Storage, id: nat, path: seq<nat>)
    requires t.Valid() && id < |t.abstracts| && Conforms(t, st, TAbstract(id)) && StorageAt(st, path).Ok? && path != []
    ensures TypeIndex(st).Ok? && 0 <= TypeIndex(st).value < |t.abstracts[id].children|
    ensures var u := TRecord(t.abstracts[id].children[TypeIndex(st).value]);
            t.Knows(u) && Conforms(t, st, u) && StepsOf(t, st, u, path) == StepsOf(t, st, TAbstract(id), path)
  {
    hide Conforms;
    DescendantIsSafe(t, st, id);
    var u := TRecord(t.abstracts[id].children[TypeIndex(st).value]);
    assert PartOf(t, st, u, path[0]) == PartOf(t, st, TAbstract(id), path[0]);
  }

  lemma {:induction false} StorageBelow(st: Storage, path: seq<nat>, i: nat)
    requires StorageAt(st, path).Ok?
    ensures StorageAt(st, path + [i]) == GetItem(StorageAt(st, path).value, i)
  {
    if path == [] {
      assert ([] + [i])[1..] == [];
    } else {
      assert (path + [i])[1..] == path[1..] + [i];
      StorageBelow(GetItem(st, path[0]).value, path[1..], i);
    }
  }

  lemma BodyBelow(steps: seq<Step>, step: Step)
    ensures Body(steps + [step]) == Body(steps) + "/" + StepText(step)
  {
    assert (steps + [step])[..|steps|] == steps;
  }

  function Reversed(s: seq<nat>): (r: seq<nat>)
    ensures |r| == |s|
  {
    if s == [] then [] else [s[|s| - 1]] + Reversed(s[..|s| - 1])
  }

  lemma ReversedMore(s: seq<nat>, x: nat)
    ensures Reversed(s + [x]) == [x] + Reversed(s)
  {
    assert (s + [x])[..|s|] == s;
  }

  lemma ReversedSuffix(s: seq<nat>, i: nat)
    requires i < |s|
    ensures Reversed(s[..i + 1]) == [s[i]] + Reversed(s[..i])
  {
    assert s[..i + 1][..i] == s[..i];
  }

  // ---------------------------------------------------------------- addresses name values of the document

  lemma {:induction false} SlotIsKey(t: Table, root: JNode, c: Cursor, id: nat, k: nat, j: nat)
    requires t.Valid() && id < |t.records| && IsAt(root, c) && Head(root, c).JObj? && k <= j < |t.records[id].keys|
    requires MakeKeys(t, root, c, id, k).Ok?
    ensures MakeKeys(t, root, c, id, 0).Ok? || k > 0
    ensures j - k < |MakeKeys(t, root, c, id, k).value| && Ok(MakeKeys(t, root, c, id, k).value[j - k]) == MakeKey(t, root, c, id, j)
    decreases j - k
  {
    hide MakeKey;
    if k < j {
      SlotIsKey(t, root, c, id, k + 1, j);
    }
  }

  lemma {:induction false} SlotIsItem(t: Table, root: JNode, c: Cursor, ty: Type, k: nat, j: nat)
    requires t.Valid() && ty.TArray? && t.Knows(ty) && IsAt(root, c) && Head(root, c).JArr? && k <= j < |Head(root, c).items|
    requires MakeItems(t, root, c, ty, k).Ok?
    ensures j - k < |MakeItems(t, root, c, ty, k).value|
    ensures Ok(MakeItems(t, root, c, ty, k).value[j - k]) == MakeStorage(t, root, Down(root, c, Index(j)), ty.item)
    decreases j - k
  {
    hide MakeStorage, NodeAt, Child, Refs, Height;
    FirstItem(t, root, c, ty, k);
    if k < j {
      hide MakeItems;
      SlotIsItem(t, root, c, ty, k + 1, j);
    }
  }

  /** The value at the cursor is read without reference and conversion, and holds the part of its own. */
  ghost predicate ReadDirectly(t: Table, root: JNode, c: Cursor, st: Storage, ty: Type, i: nat)
    requires t.Valid() && t.Knows(ty) && Conforms(t, st, ty) && IsAt(root, c) && st.SArray? && i < |st.items|
  {
    var head, u := Head(root, c), Concrete(t, st, ty);
    && RefOf(head) == Ok(None) && !head.JNull?
    && (if u.TRecord? then head.JObj? else head.JArr?)
    && Child(head, PartOf(t, st, ty, i).1).Some?
  }

  lemma ConcreteHasParts(t: Table, st: Storage, ty: Type)
    requires t.Valid() && t.Knows(ty) && Conforms(t, st, ty) && st.SArray?
    ensures Concrete(t, st, ty).TRecord? || (Concrete(t, st, ty).TArray? && ty.TArray?)
  {
  }

  /** The part of a value that was read directly is the reading of the part of the value. */
  lemma PartReadDirectly(t: Table, root: JNode, c: Cursor, st: Storage, ty: Type, i: nat)
    requires t.Valid() && t.Knows(ty) && Conforms(t, st, ty) && IsAt(root, c) && st.SArray? && i < |st.items|
    requires MakeStorage(t, root, c, ty) == Ok(st) && ReadDirectly(t, root, c, st, ty, i)
    ensures var (partType, step) := PartOf(t, st, ty, i);
            MakeStorage(t, root, Down(root, c, step), partType) == Ok(st.items[i])
  {
    ConcreteHasParts(t, st, ty);
    hide Conforms, MakeStorage, Child, Down, NodeAt, RefOf;
    if Concrete(t, st, ty).TRecord? {
      RecordBehind(t, root, c, st, ty);
      RecordPart(t, root, c, st, Concrete(t, st, ty).id, i);
    } else {
      ArrayBehind(t, root, c, st, ty);
      ArrayPart(t, root, c, st, ty, i);
    }
  }

  lemma RecordPart(t: Table, root: JNode, c: Cursor, st: Storage, id: nat, i: nat)
    requires t.Valid() && id < |t.records| && Conforms(t, st, TRecord(id)) && IsAt(root, c) && st.SArray? && i < |st.items|
    requires Head(root, c).JObj? && MakeKeys(t, root, c, id, 0) == Ok(st.items) && i < |t.records[id].keys|
    requires Child(Head(root, c), Key(t.records[id].keys[i].name)).Some?
    ensures t.Knows(t.records[id].keys[i].keyType)
    ensures MakeStorage(t, root, Down(root, c, Key(t.records[id].keys[i].name)), t.records[id].keys[i].keyType) == Ok(st.items[i])
  {
    hide Conforms, MakeStorage, Child, Down, NodeAt, RefOf, MakeKeys, MakeKey;
    SlotIsKey(t, root, c, id, 0, i);
    KeyOfInput(t, root, c, id, i);
  }

  lemma ArrayPart(t: Table, root: JNode, c: Cursor, st: Storage, ty: Type, i: nat)
    requires t.Valid() && ty.TArray? && t.Knows(ty) && IsAt(root, c) && st.SArray? && i < |st.items|
    requires Head(root, c).JArr? && MakeItems(t, root, c, ty, 0) == Ok(st.items) && Child(Head(root, c), Index(i)).Some?
    ensures MakeStorage(t, root, Down(root, c, Index(i)), ty.item) == Ok(st.items[i])
  {
    hide MakeStorage, Down, NodeAt, RefOf, MakeItems;
    SlotIsItem(t, root, c, ty, 0, i);
  }

  lemma KeyOfInput(t: Table, root: JNode, c: Cursor, id: nat, k: nat)
    requires t.Valid() && id < |t.records| && IsAt(root, c) && Head(root, c).JObj? && k < |t.records[id].keys|
    requires Child(Head(root, c), Key(t.records[id].keys[k].name)).Some?
    ensures t.Knows(t.records[id].keys[k].keyType)
    ensures MakeKey(t, root, c, id, k) == MakeStorage(t, root, Down(root, c, Key(t.records[id].keys[k].name)), t.records[id].keys[k].keyType)
  {
    hide MakeStorage;
    assert t.RecordFits(id, t.Rank());
    assert t.records[id].keys[k] in t.records[id].keys;
  }

  lemma ArrayBehind(t: Table, root: JNode, c: Cursor, st: Storage, ty: Type)
    requires t.Valid() && ty.TArray? && t.Knows(ty) && IsAt(root, c) && st.SArray?
    requires MakeStorage(t, root, c, ty) == Ok(st) && Head(root, c).JArr?
    ensures MakeItems(t, root, c, ty, 0) == Ok(st.items)
  {
    hide MakeItems;
  }

  /** An object read as an abstract record is read as the descendant it holds. */
  lemma AbstractBehind(t: Table, root: JNode, c: Cursor, st: Storage, id: nat)
    requires t.Valid() && id < |t.abstracts| && IsAt(root, c) && st.SArray? && Head(root, c).JObj?
    requires MakeAbstract(t, root, c, id) == Ok(st)
    ensures TypeIndex(st).Ok? && 0 <= TypeIndex(st).value < |t.abstracts[id].children|
    ensures t.Knows(TRecord(t.abstracts[id].children[TypeIndex(st).value]))
    ensures MakeRecord(t, root, c, t.abstracts[id].children[TypeIndex(st).value]) == Ok(st)
  {
    hide MakeRecord, MakeStorage, NodeAt, Child, Refs, Height, NameToInt, Conforms, RefOf, Ranks.Of, Table.DescendantFits;
    assert t.AbstractFits(id, t.Rank());
    var j;
    if Child(Head(root, c), Key("TYPE")).Some? {
      j := MakeStorage(t, root, Down(root, c, Key("TYPE")), t.TypeSelection(id)).value.i;
    } else {
      j := DefaultChildIndex(t, id);
    }
    TypeSlot(t, root, c, id, j);
  }

  /** An object read as a record or as an abstract record is read key by key of the record it holds. */
  lemma RecordBehind(t: Table, root: JNode, c: Cursor, st: Storage, ty: Type)
    requires t.Valid() && t.Knows(ty) && Conforms(t, st, ty) && IsAt(root, c) && st.SArray?
    requires MakeStorage(t, root, c, ty) == Ok(st) && RefOf(Head(root, c)) == Ok(None) && Head(root, c).JObj?
    requires Concrete(t, st, ty).TRecord?
    ensures MakeKeys(t, root, c, Concrete(t, st, ty).id, 0) == Ok(st.items)
  {
    hide Conforms, MakeKeys, MakeAutoKeys, MakeAbstract;
    if ty.TAbstract? {
      AbstractBehind(t, root, c, st, ty.id);
    }
  }

  ghost predicate DirectPath(t: Table, root: JNode, c: Cursor, st: Storage, ty: Type, path: seq<nat>)
    requires t.Valid() && t.Knows(ty) && Conforms(t, st, ty) && IsAt(root, c) && StorageAt(st, path).Ok?
    decreases |path|
  {
    path != [] ==>
      && ReadDirectly(t, root, c, st, ty, path[0])
      && var (partType, step) := PartOf(t, st, ty, path[0]);
      DirectPath(t, root, Down(root, c, step), st.items[path[0]], partType, path[1..])
  }

  /**
   * When the values on the way are read directly, the address of a part of the storage is the path of the JSON value it was
   * read from.
   */
  lemma {:induction false} AddressIsPath(t: Table, root: JNode, c: Cursor, st: Storage, ty: Type, path: seq<nat>)
    requires t.Valid() && t.Knows(ty) && Conforms(t, st, ty) && IsAt(root, c) && StorageAt(st, path).Ok?
    requires MakeStorage(t, root, c, ty) == Ok(st) && DirectPath(t, root, c, st, ty, path)
    ensures var d := Cursor(c.steps + StepsOf(t, st, ty, path), c.refs);
            IsAt(root, d) && MakeStorage(t, root, d, TypeAt(t, st, ty, path)) == Ok(StorageAt(st, path).value)
    decreases |path|
  {
    hide Conforms, MakeStorage, NodeAt, Child, RefOf, PartOf, Concrete;
    if path == [] {
      assert Cursor(c.steps + [], c.refs) == c;
    } else {
      var (partType, step) := PartOf(t, st, ty, path[0]);
      var d := Down(root, c, step);
      PartReadDirectly(t, root, c, st, ty, path[0]);
      AddressIsPath(t, root, d, st.items[path[0]], partType, path[1..]);
      assert d.steps + StepsOf(t, st.items[path[0]], partType, path[1..]) == c.steps + StepsOf(t, st, ty, path);
    }
  }
}
