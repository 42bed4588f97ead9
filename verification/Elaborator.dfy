/** Type-directed reading of a JSON document into storage. */
module Elaborator {
  import opened Options
  import opened JsonPath
  import opened InputTypes

  datatype ReadError =
    | AtPath(error: PathError)
    | Missing(key: string)
    | NotARecord
    | MissingType
    | TypeIsNull
    | WrongSize
    | WrongValue
    | WrongDefault

  // ---------------------------------------------------------------- what a reading can still use up

  function NumChildren(node: JNode): nat {
    match node
    case JObj(fields) => |fields|
    case JArr(items) => |items|
    case _ => 0
  }

  function ChildAt(node: JNode, k: nat): (c: JNode)
    requires k < NumChildren(node)
    ensures c < node
  {
    if node.JObj? then
      assert node.fields[k] < node;
      node.fields[k].value
    else node.items[k]
  }

  /** Height of a node above its leaves. */
  function Height(node: JNode): nat
    decreases node, NumChildren(node) + 1
  {
    HeightUpTo(node, NumChildren(node)) + 1
  }

  function HeightUpTo(node: JNode, k: nat): nat
    requires k <= NumChildren(node)
    decreases node, k
  {
    if k == 0 then 0
    else
      var h, rest := Height(ChildAt(node, k - 1)), HeightUpTo(node, k - 1);
      if h < rest then rest else h
  }

  /** All strings that the references of a document hold. */
  function Refs(node: JNode): set<string>
    decreases node, NumChildren(node) + 1
  {
    RefsUpTo(node, NumChildren(node)) + match RefOf(node) case Ok(Some(s)) => {s} case _ => {}
  }

  function RefsUpTo(node: JNode, k: nat): set<string>
    requires k <= NumChildren(node)
    decreases node, k
  {
    if k == 0 then {} else RefsUpTo(node, k - 1) + Refs(ChildAt(node, k - 1))
  }

  lemma {:induction false} ChildBelow(node: JNode, k: nat, n: nat)
    requires k < n <= NumChildren(node)
    ensures Height(ChildAt(node, k)) <= HeightUpTo(node, n) && Refs(ChildAt(node, k)) <= RefsUpTo(node, n)
    decreases n
  {
    if k < n - 1 {
      ChildBelow(node, k, n - 1);
    }
  }

  lemma {:induction false} FindIndex(fields: seq<Field>, key: string) returns (k: nat)
    requires Find(fields, key).Some?
    ensures k < |fields| && fields[k].value == Find(fields, key).value
  {
    if fields[0].key == key {
      k := 0;
    } else {
      k := FindIndex(fields[1..], key);
      k := k + 1;
    }
  }

  /** A child is lower than its node and has no other references. */
  lemma ChildSmaller(node: JNode, step: Step)
    requires Child(node, step).Some?
    ensures Height(Child(node, step).value) < Height(node) && Refs(Child(node, step).value) <= Refs(node)
  {
    var k;
    match step {
      case Key(key) => k := FindIndex(node.fields, key);
      case Index(i) => k := i;
    }
    assert ChildAt(node, k) == Child(node, step).value;
    ChildBelow(node, k, NumChildren(node));
  }

  lemma {:induction false} RefsBelow(root: JNode, steps: seq<Step>)
    requires NodeAt(root, steps).Some?
    ensures Refs(NodeAt(root, steps).value) <= Refs(root)
    decreases |steps|
  {
    if steps != [] {
      RefsBelow(root, steps[..|steps| - 1]);
      ChildSmaller(NodeAt(root, steps[..|steps| - 1]).value, steps[|steps| - 1]);
    }
  }

  /** References of the document that have not been followed. */
  function RefsLeft(root: JNode, c: Cursor): nat {
    |Refs(root) - c.refs|
  }

  /** Following a reference uses it up. */
  lemma FollowingUsesUp(root: JNode, c: Cursor, ref: string, d: Cursor)
    requires NodeAt(root, c.steps).Some? && RefOf(NodeAt(root, c.steps).value) == Ok(Some(ref))
    requires FindRef(root, c, ref) == Ok(d)
    ensures RefsLeft(root, d) < RefsLeft(root, c)
  {
    RefsBelow(root, c.steps);
    assert ref in Refs(root) - c.refs;
    assert Refs(root) - d.refs == (Refs(root) - c.refs) - {ref};
  }

  /** On objects only arrays are converted to their items and abstract records passed to a descendant. */
  function ObjectRank(ty: Type): nat {
    match ty
    case TAbstract(_) => 1
    case TArray(item, _, _) => ObjectRank(item) + 1
    case _ => 0
  }

  ghost function RankOn(t: Table, head: JNode, ty: Type): nat
    requires t.Valid()
  {
    if head.JObj? then ObjectRank(ty) else t.Rank().Of(ty)
  }

  // ---------------------------------------------------------------- reading

  function Down(root: JNode, c: Cursor, step: Step): (d: Cursor)
    requires NodeAt(root, c.steps).Some? && Child(NodeAt(root, c.steps).value, step).Some?
    ensures NodeAt(root, d.steps) == Child(NodeAt(root, c.steps).value, step) && d.refs == c.refs
  {
    NodeBelow(root, c.steps, step);
    Cursor(c.steps + [step], c.refs)
  }

  predicate IsAt(root: JNode, c: Cursor) { NodeAt(root, c.steps).Some? }

  function Head(root: JNode, c: Cursor): JNode
    requires IsAt(root, c)
  {
    NodeAt(root, c.steps).value
  }

  /** Reads the value at a cursor as a type: references first, then null, then by the type. */
  function MakeStorage(t: Table, root: JNode, c: Cursor, ty: Type): (r: Result<Storage, ReadError>)
    requires t.Valid() && t.Knows(ty) && IsAt(root, c)
    decreases RefsLeft(root, c), Height(Head(root, c)), RankOn(t, Head(root, c), ty), 2, 0
  {
    var head := Head(root, c);
    match RefOf(head)
    case Err(e) => Err(AtPath(e))
    case Ok(Some(ref)) =>
      (match FindRef(root, c, ref)
       case Err(e) => Err(AtPath(e))
       case Ok(d) =>
         FollowingUsesUp(root, c, ref, d);
         MakeStorage(t, root, d, ty))
    case Ok(None) =>
      if head.JNull? then Ok(SNull)
      else
        match ty
        case TRecord(id) => MakeRecord(t, root, c, id)
        case TAbstract(id) => MakeAbstract(t, root, c, id)
        case TArray(_, _, _) => MakeArray(t, root, c, ty)
        case _ => (match ScalarFromNode(ty, head) case Some(s) => Ok(s) case None => Err(WrongValue))
  }

  function MakeRecord(t: Table, root: JNode, c: Cursor, id: nat): (r: Result<Storage, ReadError>)
    requires t.Valid() && id < |t.records| && IsAt(root, c)
    decreases RefsLeft(root, c), Height(Head(root, c)), RankOn(t, Head(root, c), TRecord(id)), 1, 0
  {
    if Head(root, c).JObj? then
      match MakeKeys(t, root, c, id, 0)
      case Err(e) => Err(e)
      case Ok(items) => Ok(SArray(items))
    else if t.records[id].auto.None? then Err(NotARecord)
    else
      match MakeAutoKeys(t, root, c, id, 0)
      case Err(e) => Err(e)
      case Ok(items) => Ok(SArray(items))
  }

  /** The keys of a record from `k` on, read from an object. */
  function MakeKeys(t: Table, root: JNode, c: Cursor, id: nat, k: nat): (r: Result<seq<Storage>, ReadError>)
    requires t.Valid() && id < |t.records| && IsAt(root, c) && Head(root, c).JObj? && k <= |t.records[id].keys|
    decreases RefsLeft(root, c), Height(Head(root, c)), RankOn(t, Head(root, c), TRecord(id)), 0, |t.records[id].keys| - k
  {
    var keys := t.records[id].keys;
    if k == |keys| then Ok([])
    else
      var first := MakeKey(t, root, c, id, k);
      if first.Err? then Err(first.error)
      else
        match MakeKeys(t, root, c, id, k + 1)
        case Err(e) => Err(e)
        case Ok(rest) => Ok([first.value] + rest)
  }

  /** One key of a record: from the input, or else by its default. */
  function MakeKey(t: Table, root: JNode, c: Cursor, id: nat, k: nat): (r: Result<Storage, ReadError>)
    requires t.Valid() && id < |t.records| && IsAt(root, c) && Head(root, c).JObj? && k < |t.records[id].keys|
    decreases RefsLeft(root, c), Height(Head(root, c)), RankOn(t, Head(root, c), TRecord(id)), 0, 0
  {
    var key := t.records[id].keys[k];
    assert t.RecordFits(id, t.Rank());
    assert key in t.records[id].keys;
    if Child(Head(root, c), Key(key.name)).Some? then
      ChildSmaller(Head(root, c), Key(key.name));
      MakeStorage(t, root, Down(root, c, Key(key.name)), key.keyType)
    else
      match key.default
      case Obligatory => Err(Missing(key.name))
      case AtDeclaration(text) => (match FromDefault(t, text, key.keyType) case Some(s) => Ok(s) case None => Err(WrongDefault))
      case _ => Ok(SNull)
  }

  /** The keys of a record from `k` on, when the value is converted to the record. */
  function MakeAutoKeys(t: Table, root: JNode, c: Cursor, id: nat, k: nat): (r: Result<seq<Storage>, ReadError>)
    requires t.Valid() && id < |t.records| && IsAt(root, c) && !Head(root, c).JObj?
    requires t.records[id].auto.Some? && k <= |t.records[id].keys|
    decreases RefsLeft(root, c), Height(Head(root, c)), RankOn(t, Head(root, c), TRecord(id)), 0, |t.records[id].keys| - k
  {
    var rec := t.records[id];
    assert t.RecordFits(id, t.Rank());
    if k == |rec.keys| then Ok([])
    else
      assert rec.keys[k] in rec.keys;
      var first :=
        if rec.auto == Some(k) then MakeStorage(t, root, c, rec.keys[k].keyType)
        else match FromDefault(t, rec.keys[k].default.text, rec.keys[k].keyType) case Some(s) => Ok(s) case None => Err(WrongDefault);
      if first.Err? then Err(first.error)
      else
        match MakeAutoKeys(t, root, c, id, k + 1)
        case Err(e) => Err(e)
        case Ok(rest) => Ok([first.value] + rest)
  }

  function MakeAbstract(t: Table, root: JNode, c: Cursor, id: nat): (r: Result<Storage, ReadError>)
    requires t.Valid() && id < |t.abstracts| && IsAt(root, c)
    decreases RefsLeft(root, c), Height(Head(root, c)), RankOn(t, Head(root, c), TAbstract(id)), 1, 0
  {
    var head := Head(root, c);
    assert t.AbstractFits(id, t.Rank());
    if head.JObj? && Child(head, Key("TYPE")).Some? then
      ChildSmaller(head, Key("TYPE"));
      match MakeStorage(t, root, Down(root, c, Key("TYPE")), t.TypeSelection(id))
      case Err(e) => Err(e)
      case Ok(choice) =>
        if !choice.SInt? then Err(TypeIsNull)
        else if !(0 <= choice.i < |t.abstracts[id].children|) then Err(WrongValue)
        else MakeRecord(t, root, c, t.abstracts[id].children[choice.i])
    else
      match t.DefaultChild(id)
      case None => Err(MissingType)
      case Some(child) => MakeRecord(t, root, c, child)
  }

  function MakeArray(t: Table, root: JNode, c: Cursor, ty: Type): (r: Result<Storage, ReadError>)
    requires t.Valid() && ty.TArray? && t.Knows(ty) && IsAt(root, c)
    decreases RefsLeft(root, c), Height(Head(root, c)), RankOn(t, Head(root, c), ty), 1, 0
  {
    var head := Head(root, c);
    if head.JArr? then
      if !SizeFits(ty, |head.items|) then Err(WrongSize)
      else
        match MakeItems(t, root, c, ty, 0)
        case Err(e) => Err(e)
        case Ok(items) => Ok(SArray(items))
    else if !SizeFits(ty, 1) then Err(WrongSize)
    else
      match MakeStorage(t, root, c, ty.item)
      case Err(e) => Err(e)
      case Ok(s) => Ok(SArray([s]))
  }

  /** The items of an array from `k` on. */
  function MakeItems(t: Table, root: JNode, c: Cursor, ty: Type, k: nat): (r: Result<seq<Storage>, ReadError>)
    requires t.Valid() && ty.TArray? && t.Knows(ty) && IsAt(root, c) && Head(root, c).JArr? && k <= |Head(root, c).items|
    decreases RefsLeft(root, c), Height(Head(root, c)), RankOn(t, Head(root, c), ty), 0, |Head(root, c).items| - k
  {
    var head := Head(root, c);
    if k == |head.items| then Ok([])
    else
      ChildSmaller(head, Index(k));
      match MakeStorage(t, root, Down(root, c, Index(k)), ty.item)
      case Err(e) => Err(e)
      case Ok(s) =>
        match MakeItems(t, root, c, ty, k + 1)
        case Err(e) => Err(e)
        case Ok(rest) => Ok([s] + rest)
  }

  // ---------------------------------------------------------------- type soundness

  /** Storage fits a declared type: null, or the right kind with all parts fitting. */
  ghost predicate Conforms(t: Table, st: Storage, ty: Type)
    requires t.Valid() && t.Knows(ty)
    decreases st, if ty.TAbstract? then 1 else 0
  {
    st.SNull? ||
    match ty
    case TRecord(id) =>
      assert t.RecordFits(id, t.Rank());
      && st.SArray? && |st.items| == |t.records[id].keys|
      && forall k | 0 <= k < |st.items| :: (assert t.records[id].keys[k] in t.records[id].keys;
                                            Conforms(t, st.items[k], t.records[id].keys[k].keyType))
    case TAbstract(id) =>
      assert t.AbstractFits(id, t.Rank());
      && st.SArray? && st.items != [] && st.items[0].SInt? && 0 <= st.items[0].i < |t.abstracts[id].children|
      && Conforms(t, st, TRecord(t.abstracts[id].children[st.items[0].i]))
    case TArray(item, min, max) => st.SArray? && min <= |st.items| <= max && forall k | 0 <= k < |st.items| :: Conforms(t, st.items[k], item)
    case TInteger(lo, hi) => st.SInt? && lo <= st.i <= hi
    case TDouble(low, high) => st.SDouble? && low <= st.d <= high
    case TBool => st.SBool?
    case TSelection(names) => st.SInt? && exists i :: 0 <= i < |names| && names[i].value == st.i
    case TString => st.SString?
    case TFileName(input) => st.SString? && FileNameFits(input, st.s)
  }

  /** The keys of a record from `k` on. */
  ghost predicate KeysConform(t: Table, items: seq<Storage>, id: nat, k: nat)
    requires t.Valid() && id < |t.records| && k <= |t.records[id].keys|
  {
    && |items| == |t.records[id].keys| - k
    && forall j | 0 <= j < |items| :: KeyConforms(t, items[j], id, k + j)
  }

  ghost predicate KeyConforms(t: Table, st: Storage, id: nat, k: nat)
    requires t.Valid() && id < |t.records| && k < |t.records[id].keys|
  {
    assert t.RecordFits(id, t.Rank());
    assert t.records[id].keys[k] in t.records[id].keys;
    Conforms(t, st, t.records[id].keys[k].keyType)
  }

  lemma KeysMakeRecord(t: Table, items: seq<Storage>, id: nat)
    requires t.Valid() && id < |t.records| && KeysConform(t, items, id, 0)
    ensures Conforms(t, SArray(items), TRecord(id))
  {
    assert t.RecordFits(id, t.Rank());
    forall k | 0 <= k < |items|
      ensures t.records[id].keys[k] in t.records[id].keys && Conforms(t, items[k], t.records[id].keys[k].keyType)
    {
      assert KeyConforms(t, items[k], id, 0 + k);
    }
  }

  lemma KeysExtend(t: Table, first: Storage, rest: seq<Storage>, id: nat, k: nat)
    requires t.Valid() && id < |t.records| && k < |t.records[id].keys|
    requires KeyConforms(t, first, id, k) && KeysConform(t, rest, id, k + 1)
    ensures KeysConform(t, [first] + rest, id, k)
  {
    var items := [first] + rest;
    forall j | 0 <= j < |items|
      ensures KeyConforms(t, items[j], id, k + j)
    {
      if j > 0 {
        assert KeyConforms(t, rest[j - 1], id, k + 1 + (j - 1));
      }
    }
  }

  /** A descendant whose slot for TYPE holds its own index conforms to the abstract record. */
  lemma DescendantConforms(t: Table, st: Storage, id: nat, j: nat)
    requires t.Valid() && id < |t.abstracts| && j < |t.abstracts[id].children|
    requires t.AbstractFits(id, t.Rank()) && Conforms(t, st, TRecord(t.abstracts[id].children[j]))
    requires st.SArray? && st.items != [] && st.items[0] == SInt(j)
    ensures Conforms(t, st, TAbstract(id))
  {
  }

  /** The name of a descendant is looked up to its own index. */
  lemma OwnChoice(t: Table, id: nat, j: nat)
    requires t.Valid() && id < |t.abstracts| && t.AbstractFits(id, t.Rank()) && j < |t.abstracts[id].children|
    ensures NameToInt(t.Choices(id, |t.abstracts[id].children|), t.records[t.abstracts[id].children[j]].name) == Some(j)
  {
    hide Ranks.Of, Table.DescendantFits;
    var children := t.abstracts[id].children;
    var choices, name := t.Choices(id, |children|), t.records[children[j]].name;
    NameFound(choices, name);
    assert choices[j].name == name;
    t.ChoiceOf(id, |children|, name);
    assert forall a, b | 0 <= a < b < |children| :: t.records[children[a]].name != t.records[children[b]].name;
  }

  lemma OwnName(t: Table, id: nat, j: nat)
    requires t.Valid() && id < |t.abstracts| && t.AbstractFits(id, t.Rank()) && j < |t.abstracts[id].children|
    ensures FromDefault(t, t.records[t.abstracts[id].children[j]].name, t.TypeSelection(id)) == Some(SInt(j))
  {
    OwnChoice(t, id, j);
  }

  lemma DefaultChildIndex(t: Table, id: nat) returns (j: nat)
    requires t.Valid() && id < |t.abstracts| && t.DefaultChild(id).Some?
    ensures t.AbstractFits(id, t.Rank()) && j < |t.abstracts[id].children| && t.abstracts[id].children[j] == t.DefaultChild(id).value
  {
    assert t.AbstractFits(id, t.Rank());
    var children := t.abstracts[id].children;
    j :| 0 <= j < |children| && children[j] == t.DefaultChild(id).value;
  }

  lemma ScalarConforms(t: Table, ty: Type, s: string, node: JNode)
    requires t.Valid() && !ty.TRecord? && !ty.TAbstract? && !ty.TArray?
    ensures ScalarFromDefault(ty, s).Some? ==> Conforms(t, ScalarFromDefault(ty, s).value, ty)
    ensures ScalarFromNode(ty, node).Some? ==> Conforms(t, ScalarFromNode(ty, node).value, ty)
  {
    if ty.TSelection? {
      NameFound(ty.names, s);
      if node.JStr? {
        NameFound(ty.names, node.s);
      }
    }
  }

  /** What a default text gives conforms to its type. */
  lemma {:induction false} DefaultConforms(t: Table, s: string, ty: Type)
    requires t.Valid() && t.Knows(ty) && FromDefault(t, s, ty).Some?
    ensures Conforms(t, FromDefault(t, s, ty).value, ty)
    decreases t.Rank().Of(ty), 1, 0
  {
    match ty
    case TAbstract(id) =>
      var j := DefaultChildIndex(t, id);
      var child := t.abstracts[id].children[j];
      DefaultConforms(t, s, TRecord(child));
      assert t.DescendantFits(id, child);
      SlotsOfDefault(t, s, child, 0);
      OwnName(t, id, j);
      DescendantConforms(t, FromDefault(t, s, ty).value, id, j);
    case TRecord(id) =>
      assert t.RecordFits(id, t.Rank());
      KeysOfDefaultConform(t, s, id, 0);
      KeysMakeRecord(t, KeysFromDefault(t, s, id, 0).value, id);
    case TArray(item, _, _) =>
      DefaultConforms(t, s, item);
    case _ =>
      ScalarConforms(t, ty, s, JNull);
  }

  /** The first slot of a converted record. */
  lemma SlotsOfDefault(t: Table, s: string, id: nat, k: nat)
    requires t.Valid() && id < |t.records| && t.records[id].auto.Some? && k < |t.records[id].keys|
    requires KeysFromDefault(t, s, id, k).Some? && t.records[id].auto != Some(k)
    ensures var key := t.records[id].keys[k];
            && key.default.AtDeclaration? && t.Knows(key.keyType) && KeysFromDefault(t, s, id, k).value != []
            && FromDefault(t, key.default.text, key.keyType) == Some(KeysFromDefault(t, s, id, k).value[0])
  {
    assert t.RecordFits(id, t.Rank());
    assert t.records[id].keys[k] in t.records[id].keys;
  }

  lemma {:induction false} KeysOfDefaultConform(t: Table, s: string, id: nat, k: nat)
    requires t.Valid() && id < |t.records| && t.records[id].auto.Some? && k <= |t.records[id].keys|
    requires KeysFromDefault(t, s, id, k).Some?
    ensures KeysConform(t, KeysFromDefault(t, s, id, k).value, id, k)
    decreases t.Rank().Of(TRecord(id)), 0, |t.records[id].keys| - k
  {
    var rec := t.records[id];
    assert t.RecordFits(id, t.Rank());
    if k < |rec.keys| {
      assert rec.keys[k] in rec.keys;
      var text := if rec.auto == Some(k) then s else rec.keys[k].default.text;
      DefaultConforms(t, text, rec.keys[k].keyType);
      KeysOfDefaultConform(t, s, id, k + 1);
      KeysExtend(t, FromDefault(t, text, rec.keys[k].keyType).value, KeysFromDefault(t, s, id, k + 1).value, id, k);
    }
  }

  /** Whatever is read conforms to the type it was read as. */
  lemma {:induction false} ReadConforms(t: Table, root: JNode, c: Cursor, ty: Type)
    requires t.Valid() && t.Knows(ty) && IsAt(root, c) && MakeStorage(t, root, c, ty).Ok?
    ensures Conforms(t, MakeStorage(t, root, c, ty).value, ty)
    decreases RefsLeft(root, c), Height(Head(root, c)), RankOn(t, Head(root, c), ty), 2, 0
  {
    var head := Head(root, c);
    if RefOf(head).value.Some? {
      var d := FindRef(root, c, RefOf(head).value.value).value;
      FollowingUsesUp(root, c, RefOf(head).value.value, d);
      ReadConforms(t, root, d, ty);
    } else if !head.JNull? {
      match ty
      case TRecord(id) => RecordConforms(t, root, c, id);
      case TAbstract(id) => AbstractConforms(t, root, c, id);
      case TArray(_, _, _) => ArrayConforms(t, root, c, ty);
      case _ => ScalarConforms(t, ty, "", head);
    }
  }

  lemma {:induction false} RecordConforms(t: Table, root: JNode, c: Cursor, id: nat)
    requires t.Valid() && id < |t.records| && IsAt(root, c) && MakeRecord(t, root, c, id).Ok?
    ensures MakeRecord(t, root, c, id).value.SArray? && Conforms(t, MakeRecord(t, root, c, id).value, TRecord(id))
    decreases RefsLeft(root, c), Height(Head(root, c)), RankOn(t, Head(root, c), TRecord(id)), 1, 0
  {
    if Head(root, c).JObj? {
      KeysReadConform(t, root, c, id, 0);
      KeysMakeRecord(t, MakeKeys(t, root, c, id, 0).value, id);
    } else {
      AutoKeysConform(t, root, c, id, 0);
      KeysMakeRecord(t, MakeAutoKeys(t, root, c, id, 0).value, id);
    }
  }

  lemma {:induction false} KeysReadConform(t: Table, root: JNode, c: Cursor, id: nat, k: nat)
    requires t.Valid() && id < |t.records| && IsAt(root, c) && Head(root, c).JObj? && k <= |t.records[id].keys|
    requires MakeKeys(t, root, c, id, k).Ok?
    ensures KeysConform(t, MakeKeys(t, root, c, id, k).value, id, k)
    decreases RefsLeft(root, c), Height(Head(root, c)), RankOn(t, Head(root, c), TRecord(id)), 0, |t.records[id].keys| - k
  {
    if k < |t.records[id].keys| {
      KeyReadConforms(t, root, c, id, k);
      KeysReadConform(t, root, c, id, k + 1);
      KeysExtend(t, MakeKey(t, root, c, id, k).value, MakeKeys(t, root, c, id, k + 1).value, id, k);
    }
  }

  lemma {:induction false} KeyReadConforms(t: Table, root: JNode, c: Cursor, id: nat, k: nat)
    requires t.Valid() && id < |t.records| && IsAt(root, c) && Head(root, c).JObj? && k < |t.records[id].keys|
    requires MakeKey(t, root, c, id, k).Ok?
    ensures KeyConforms(t, MakeKey(t, root, c, id, k).value, id, k)
    decreases RefsLeft(root, c), Height(Head(root, c)), RankOn(t, Head(root, c), TRecord(id)), 0, 0
  {
    var key := t.records[id].keys[k];
    assert t.RecordFits(id, t.Rank());
    assert key in t.records[id].keys;
    if Child(Head(root, c), Key(key.name)).Some? {
      ChildSmaller(Head(root, c), Key(key.name));
      ReadConforms(t, root, Down(root, c, Key(key.name)), key.keyType);
    } else if key.default.AtDeclaration? {
      DefaultConforms(t, key.default.text, key.keyType);
    }
  }

  lemma {:induction false} AutoKeysConform(t: Table, root: JNode, c: Cursor, id: nat, k: nat)
    requires t.Valid() && id < |t.records| && IsAt(root, c) && !Head(root, c).JObj?
    requires t.records[id].auto.Some? && k <= |t.records[id].keys| && MakeAutoKeys(t, root, c, id, k).Ok?
    ensures KeysConform(t, MakeAutoKeys(t, root, c, id, k).value, id, k)
    decreases RefsLeft(root, c), Height(Head(root, c)), RankOn(t, Head(root, c), TRecord(id)), 0, |t.records[id].keys| - k
  {
    var rec := t.records[id];
    assert t.RecordFits(id, t.Rank());
    if k < |rec.keys| {
      assert rec.keys[k] in rec.keys;
      if rec.auto == Some(k) {
        ReadConforms(t, root, c, rec.keys[k].keyType);
      } else {
        DefaultConforms(t, rec.keys[k].default.text, rec.keys[k].keyType);
      }
      AutoKeysConform(t, root, c, id, k + 1);
      KeysExtend(t, MakeAutoKeys(t, root, c, id, k).value[0], MakeAutoKeys(t, root, c, id, k + 1).value, id, k);
    }
  }

  /** The slot for TYPE holds the index of the descendant that was chosen. */
  lemma TypeSlot(t: Table, root: JNode, c: Cursor, id: nat, j: nat)
    requires t.Valid() && id < |t.abstracts| && IsAt(root, c) && t.AbstractFits(id, t.Rank()) && j < |t.abstracts[id].children|
    requires Head(root, c).JObj? && Child(Head(root, c), Key("TYPE")).Some? ==>
               MakeStorage(t, root, Down(root, c, Key("TYPE")), t.TypeSelection(id)) == Ok(SInt(j))
    requires MakeRecord(t, root, c, t.abstracts[id].children[j]).Ok?
    ensures var st := MakeRecord(t, root, c, t.abstracts[id].children[j]).value; st.SArray? && st.items != [] && st.items[0] == SInt(j)
  {
    var child := t.abstracts[id].children[j];
    assert t.DescendantFits(id, child);
    OwnName(t, id, j);
    if Head(root, c).JObj? {
      assert MakeKeys(t, root, c, child, 0).value[0] == MakeKey(t, root, c, child, 0).value;
    } else {
      assert t.records[child].auto != Some(0);
    }
  }

  lemma {:induction false} AbstractConforms(t: Table, root: JNode, c: Cursor, id: nat)
    requires t.Valid() && id < |t.abstracts| && IsAt(root, c) && MakeAbstract(t, root, c, id).Ok?
    ensures Conforms(t, MakeAbstract(t, root, c, id).value, TAbstract(id))
    decreases RefsLeft(root, c), Height(Head(root, c)), RankOn(t, Head(root, c), TAbstract(id)), 1, 0
  {
    var head := Head(root, c);
    assert t.AbstractFits(id, t.Rank());
    var j;
    if head.JObj? && Child(head, Key("TYPE")).Some? {
      ChildSmaller(head, Key("TYPE"));
      j := MakeStorage(t, root, Down(root, c, Key("TYPE")), t.TypeSelection(id)).value.i;
    } else {
      j := DefaultChildIndex(t, id);
    }
    RecordConforms(t, root, c, t.abstracts[id].children[j]);
    TypeSlot(t, root, c, id, j);
    DescendantConforms(t, MakeAbstract(t, root, c, id).value, id, j);
  }

  ghost predicate ItemsFit(t: Table, items: seq<Storage>, item: Type)
    requires t.Valid() && t.Knows(item)
  {
    forall j | 0 <= j < |items| :: Conforms(t, items[j], item)
  }

  lemma NoItems(t: Table, item: Type)
    requires t.Valid() && t.Knows(item)
    ensures ItemsFit(t, [], item)
  {
  }

  lemma ItemsExtend(t: Table, first: Storage, rest: seq<Storage>, item: Type)
    requires t.Valid() && t.Knows(item) && Conforms(t, first, item) && ItemsFit(t, rest, item)
    ensures ItemsFit(t, [first] + rest, item)
  {
    hide Conforms;
    forall j | 0 <= j < |[first] + rest|
      ensures Conforms(t, ([first] + rest)[j], item)
    {
      assert j > 0 ==> ([first] + rest)[j] == rest[j - 1];
    }
  }

  lemma {:induction false} ArrayConforms(t: Table, root: JNode, c: Cursor, ty: Type)
    requires t.Valid() && ty.TArray? && t.Knows(ty) && IsAt(root, c) && MakeArray(t, root, c, ty).Ok?
    ensures Conforms(t, MakeArray(t, root, c, ty).value, ty)
    decreases RefsLeft(root, c), Height(Head(root, c)), RankOn(t, Head(root, c), ty), 1, 0
  {
    if Head(root, c).JArr? {
      ItemsConform(t, root, c, ty, 0);
    } else {
      ReadConforms(t, root, c, ty.item);
    }
  }

  lemma FirstItem(t: Table, root: JNode, c: Cursor, ty: Type, k: nat)
    requires t.Valid() && ty.TArray? && t.Knows(ty) && IsAt(root, c) && Head(root, c).JArr? && k < |Head(root, c).items|
    requires MakeItems(t, root, c, ty, k).Ok?
    ensures var first, rest := MakeStorage(t, root, Down(root, c, Index(k)), ty.item), MakeItems(t, root, c, ty, k + 1);
            first.Ok? && rest.Ok? && MakeItems(t, root, c, ty, k).value == [first.value] + rest.value
  {
    hide MakeStorage;
  }

  lemma {:induction false} ItemsConform(t: Table, root: JNode, c: Cursor, ty: Type, k: nat)
    requires t.Valid() && ty.TArray? && t.Knows(ty) && IsAt(root, c) && Head(root, c).JArr? && k <= |Head(root, c).items|
    requires MakeItems(t, root, c, ty, k).Ok?
    ensures |MakeItems(t, root, c, ty, k).value| == |Head(root, c).items| - k
    ensures ItemsFit(t, MakeItems(t, root, c, ty, k).value, ty.item)
    decreases RefsLeft(root, c), Height(Head(root, c)), RankOn(t, Head(root, c), ty), 0, |Head(root, c).items| - k
  {
    hide Conforms, ItemsFit, MakeStorage, Height, Refs, RankOn;
    if k == |Head(root, c).items| {
      NoItems(t, ty.item);
    } else {
      ChildSmaller(Head(root, c), Index(k));
      FirstItem(t, root, c, ty, k);
      ReadConforms(t, root, Down(root, c, Index(k)), ty.item);
      ItemsConform(t, root, c, ty, k + 1);
      ItemsExtend(t, MakeStorage(t, root, Down(root, c, Index(k)), ty.item).value, MakeItems(t, root, c, ty, k + 1).value, ty.item);
    }
  }

  // ---------------------------------------------------------------- null slots

  /** The value a cursor stands for once all references are followed. */
  function Resolved(root: JNode, c: Cursor): Result<JNode, PathError>
    requires IsAt(root, c)
    decreases RefsLeft(root, c)
  {
    match RefOf(Head(root, c))
    case Err(e) => Err(e)
    case Ok(None) => Ok(Head(root, c))
    case Ok(Some(ref)) =>
      match FindRef(root, c, ref)
      case Err(e) => Err(e)
      case Ok(d) =>
        FollowingUsesUp(root, c, ref, d);
        Resolved(root, d)
  }

  lemma {:induction false} DefaultNotNull(t: Table, s: string, ty: Type)
    requires t.Valid() && t.Knows(ty) && FromDefault(t, s, ty).Some?
    ensures FromDefault(t, s, ty).value != SNull
    decreases t.Rank().Of(ty), if ty.TAbstract? then 1 else 0
  {
    match ty
    case TAbstract(id) => DefaultNotNull(t, s, TRecord(t.DefaultChild(id).value));
    case _ =>
  }

  lemma AbstractIsArray(t: Table, root: JNode, c: Cursor, id: nat)
    requires t.Valid() && id < |t.abstracts| && IsAt(root, c) && MakeAbstract(t, root, c, id).Ok?
    ensures MakeAbstract(t, root, c, id).value.SArray?
  {
    hide MakeStorage, MakeKeys, MakeAutoKeys;
  }

  lemma DirectNotNull(t: Table, root: JNode, c: Cursor, ty: Type)
    requires t.Valid() && t.Knows(ty) && IsAt(root, c) && MakeStorage(t, root, c, ty).Ok?
    requires RefOf(Head(root, c)) == Ok(None)
    ensures MakeStorage(t, root, c, ty).value == SNull <==> Head(root, c) == JNull
  {
    hide MakeKeys, MakeAutoKeys, MakeItems;
    match ty
    case TAbstract(id) => if !Head(root, c).JNull? { AbstractIsArray(t, root, c, id); }
    case _ =>
  }

  /** Null storage stands for a null of the document and for nothing else. */
  lemma {:induction false} NullIffNull(t: Table, root: JNode, c: Cursor, ty: Type)
    requires t.Valid() && t.Knows(ty) && IsAt(root, c) && MakeStorage(t, root, c, ty).Ok?
    ensures MakeStorage(t, root, c, ty).value == SNull <==> Resolved(root, c) == Ok(JNull)
    decreases RefsLeft(root, c)
  {
    hide MakeRecord, MakeAbstract, MakeArray, ScalarFromNode;
    if RefOf(Head(root, c)).value.Some? {
      var d := FindRef(root, c, RefOf(Head(root, c)).value.value).value;
      FollowingUsesUp(root, c, RefOf(Head(root, c)).value.value, d);
      NullIffNull(t, root, d, ty);
    } else {
      DirectNotNull(t, root, c, ty);
    }
  }

  /** A slot of a record is null exactly when its key is given as null, or not given and without a declared value. */
  lemma NullSlotIff(t: Table, root: JNode, c: Cursor, id: nat, k: nat)
    requires t.Valid() && id < |t.records| && IsAt(root, c) && Head(root, c).JObj? && k < |t.records[id].keys|
    requires MakeKey(t, root, c, id, k).Ok?
    ensures var key := t.records[id].keys[k];
            MakeKey(t, root, c, id, k).value == SNull
            <==> if Child(Head(root, c), Key(key.name)).Some? then Resolved(root, Down(root, c, Key(key.name))) == Ok(JNull)
                 else key.default.Optional? || key.default.AtReadTime?
  {
    var key := t.records[id].keys[k];
    assert t.RecordFits(id, t.Rank());
    assert key in t.records[id].keys;
    if Child(Head(root, c), Key(key.name)).Some? {
      NullIffNull(t, root, Down(root, c, Key(key.name)), key.keyType);
    } else if key.default.AtDeclaration? {
      DefaultNotNull(t, key.default.text, key.keyType);
    }
  }

  // ---------------------------------------------------------------- references that are not followed

  /** Each place of the chain is a reference that leads to the next one. */
  ghost predicate IsChain(root: JNode, cs: seq<Cursor>) {
    && cs != [] && (forall i | 0 <= i < |cs| :: IsAt(root, cs[i]))
    && forall i | 0 <= i < |cs| - 1 :: LeadsTo(root, cs[i], cs[i + 1])
  }

  predicate LeadsTo(root: JNode, c: Cursor, d: Cursor)
    requires IsAt(root, c)
  {
    var ref := RefOf(Head(root, c));
    ref.Ok? && ref.value.Some? && FindRef(root, c, ref.value.value) == Ok(d)
  }

  /** Reading where a chain of references starts is reading where it ends. */
  lemma {:induction false} ChainReadAtEnd(t: Table, root: JNode, cs: seq<Cursor>, ty: Type)
    requires t.Valid() && t.Knows(ty) && IsChain(root, cs)
    ensures MakeStorage(t, root, cs[0], ty) == MakeStorage(t, root, cs[|cs| - 1], ty)
    decreases |cs|
  {
    if |cs| > 1 {
      assert LeadsTo(root, cs[0], cs[1]);
      forall i | 0 <= i < |cs| - 2
        ensures LeadsTo(root, cs[1..][i], cs[1..][i + 1])
      {
        assert LeadsTo(root, cs[i + 1], cs[i + 2]);
      }
      ChainReadAtEnd(t, root, cs[1..], ty);
      OneReferenceRead(t, root, cs[0], cs[1], ty);
    }
  }

  lemma OneReferenceRead(t: Table, root: JNode, c: Cursor, d: Cursor, ty: Type)
    requires t.Valid() && t.Knows(ty) && IsAt(root, c) && IsAt(root, d) && LeadsTo(root, c, d)
    ensures MakeStorage(t, root, c, ty) == MakeStorage(t, root, d, ty)
  {
    hide MakeRecord, MakeAbstract, MakeArray, ScalarFromNode, FindRef;
  }

  /** Along a chain the references that were followed are remembered. */
  lemma {:induction false} ChainRemembers(root: JNode, cs: seq<Cursor>, i: nat, j: nat)
    requires IsChain(root, cs) && i < j < |cs|
    ensures RefOf(Head(root, cs[i])).Ok? && RefOf(Head(root, cs[i])).value.Some?
    ensures RefOf(Head(root, cs[i])).value.value in cs[j].refs
    decreases j
  {
    assert LeadsTo(root, cs[i], cs[i + 1]);
    if i + 1 < j {
      ChainRemembers(root, cs, i, j - 1);
      assert LeadsTo(root, cs[j - 1], cs[j]);
    }
  }

  /** A chain of references that comes to a reference it has followed before is refused, whatever is to be read. */
  lemma CycleRefused(t: Table, root: JNode, cs: seq<Cursor>, i: nat, ty: Type)
    requires t.Valid() && t.Knows(ty) && IsChain(root, cs) && i < |cs| - 1
    requires RefOf(Head(root, cs[i])) == RefOf(Head(root, cs[|cs| - 1]))
    ensures MakeStorage(t, root, cs[0], ty) == Err(AtPath(CannotFollow))
  {
    ChainReadAtEnd(t, root, cs, ty);
    ChainRemembers(root, cs, i, |cs| - 1);
    SeenRefused(t, root, cs[|cs| - 1], ty);
  }

  lemma SeenRefused(t: Table, root: JNode, c: Cursor, ty: Type)
    requires t.Valid() && t.Knows(ty) && IsAt(root, c) && RefOf(Head(root, c)).Ok? && RefOf(Head(root, c)).value.Some?
    requires RefOf(Head(root, c)).value.value in c.refs
    ensures MakeStorage(t, root, c, ty) == Err(AtPath(CannotFollow))
  {
    hide MakeRecord, MakeAbstract, MakeArray, ScalarFromNode;
  }

  // ---------------------------------------------------------------- defaults and input agree

  /** The scalar type at the end of the automatic conversions; a type that is not converted is its own leaf. */
  ghost function LeafType(t: Table, ty: Type): Type
    requires t.Valid() && t.Knows(ty)
    decreases t.Rank().Of(ty)
  {
    match ty
    case TRecord(id) =>
      assert t.RecordFits(id, t.Rank());
      if t.records[id].auto.None? then ty
      else
        assert t.records[id].keys[t.records[id].auto.value] in t.records[id].keys;
        LeafType(t, t.records[id].keys[t.records[id].auto.value].keyType)
    case TAbstract(id) => if t.DefaultChild(id).None? then ty else LeafType(t, TRecord(t.DefaultChild(id).value))
    case TArray(item, _, _) => LeafType(t, item)
    case _ => ty
  }

  /** The JSON value that a default text denotes for a scalar type. */
  function Denoted(leaf: Type, s: string): Option<JNode> {
    match leaf
    case TInteger(_, _) => (match ParseInt(s) case Some(v) => Some(JInt(v)) case None => None)
    case TDouble(_, _) => (match ParseReal(s) case Some(v) => Some(JReal(v)) case None => None)
    case TBool => if s == "true" then Some(JBool(true)) else if s == "false" then Some(JBool(false)) else None
    case TSelection(_) => Some(JStr(s))
    case TString => Some(JStr(s))
    case TFileName(_) => Some(JStr(s))
    case _ => None
  }

  predicate Agree<A(==)>(r: Result<A, ReadError>, o: Option<A>) {
    (r.Ok? <==> o.Some?) && (r.Ok? ==> r.value == o.value)
  }

  /** The reading of a value that is no reference, object, array or null. */
  function ReadPlain(t: Table, root: JNode, c: Cursor, ty: Type): Result<Storage, ReadError>
    requires t.Valid() && t.Knows(ty) && IsAt(root, c)
  {
    match ty
    case TRecord(id) => MakeRecord(t, root, c, id)
    case TAbstract(id) => if t.DefaultChild(id).None? then Err(MissingType) else MakeRecord(t, root, c, t.DefaultChild(id).value)
    case TArray(item, _, _) => if !SizeFits(ty, 1) then Err(WrongSize) else OneItem(MakeStorage(t, root, c, item))
    case _ => (match ScalarFromNode(ty, Head(root, c)) case Some(s) => Ok(s) case None => Err(WrongValue))
  }

  function OneItem(r: Result<Storage, ReadError>): Result<Storage, ReadError> {
    match r case Err(e) => Err(e) case Ok(s) => Ok(SArray([s]))
  }

  lemma ScalarIsReadPlain(t: Table, root: JNode, c: Cursor, ty: Type)
    requires t.Valid() && t.Knows(ty) && IsAt(root, c)
    requires var h := Head(root, c); h.JStr? || h.JBool? || h.JInt? || h.JReal?
    ensures MakeStorage(t, root, c, ty) == ReadPlain(t, root, c, ty)
  {
  }

  lemma ScalarsAgree(ty: Type, s: string, node: JNode)
    requires !ty.TRecord? && !ty.TAbstract? && !ty.TArray? && Denoted(ty, s) == Some(node)
    ensures ScalarFromNode(ty, node) == ScalarFromDefault(ty, s)
  {
    hide ParseInt, ParseReal, NameToInt, FileNameFits, WrapInt;
    match ty
    case TInteger(_, _) => WrapKeeps(ParseInt(s).value);
    case _ =>
  }

  lemma DenotedIsScalar(leaf: Type, s: string)
    requires Denoted(leaf, s).Some?
    ensures var h := Denoted(leaf, s).value; h.JStr? || h.JBool? || h.JInt? || h.JReal?
    ensures !leaf.TRecord? && !leaf.TAbstract? && !leaf.TArray?
  {
  }

  /** Storage from a default text is the storage of the value that the text denotes, through any conversions. */
  lemma {:induction false} DefaultIsInput(t: Table, root: JNode, c: Cursor, s: string, ty: Type)
    requires t.Valid() && t.Knows(ty) && IsAt(root, c) && Denoted(LeafType(t, ty), s) == Some(Head(root, c))
    ensures Agree(MakeStorage(t, root, c, ty), FromDefault(t, s, ty))
    decreases t.Rank().Of(ty), 1, 0
  {
    hide MakeStorage, MakeAbstract, MakeArray, Denoted, ScalarFromNode, ScalarFromDefault;
    DenotedIsScalar(LeafType(t, ty), s);
    ScalarIsReadPlain(t, root, c, ty);
    match ty
    case TAbstract(id) =>
      DefaultIsInput(t, root, c, s, TRecord(t.DefaultChild(id).value));
      ScalarIsReadPlain(t, root, c, TRecord(t.DefaultChild(id).value));
    case TRecord(id) =>
      assert t.RecordFits(id, t.Rank());
      KeysAgree(t, root, c, s, id, 0);
    case TArray(item, _, _) =>
      DefaultIsInput(t, root, c, s, item);
    case _ =>
      ScalarsAgree(ty, s, Head(root, c));
  }

  lemma {:induction false} KeysAgree(t: Table, root: JNode, c: Cursor, s: string, id: nat, k: nat)
    requires t.Valid() && id < |t.records| && t.records[id].auto.Some? && k <= |t.records[id].keys|
    requires IsAt(root, c) && Denoted(LeafType(t, TRecord(id)), s) == Some(Head(root, c)) && !Head(root, c).JObj?
    ensures Agree(MakeAutoKeys(t, root, c, id, k), KeysFromDefault(t, s, id, k))
    decreases t.Rank().Of(TRecord(id)), 0, |t.records[id].keys| - k
  {
    hide MakeStorage, Denoted, NodeAt, Child, RefOf, Refs, Height;
    var rec := t.records[id];
    assert t.RecordFits(id, t.Rank());
    if k < |rec.keys| {
      assert rec.keys[k] in rec.keys;
      if rec.auto == Some(k) {
        DefaultIsInput(t, root, c, s, rec.keys[k].keyType);
      }
      KeysAgree(t, root, c, s, id, k + 1);
    }
  }

  /** A default text that gives storage denotes a JSON value. */
  lemma {:induction false} DefaultDenotes(t: Table, s: string, ty: Type)
    requires t.Valid() && t.Knows(ty) && FromDefault(t, s, ty).Some?
    ensures Denoted(LeafType(t, ty), s).Some?
    decreases t.Rank().Of(ty), 1, 0
  {
    match ty
    case TAbstract(id) => DefaultDenotes(t, s, TRecord(t.DefaultChild(id).value));
    case TRecord(id) =>
      assert t.RecordFits(id, t.Rank());
      KeyDenotes(t, s, id, 0);
    case TArray(item, _, _) => DefaultDenotes(t, s, item);
    case _ =>
  }

  lemma {:induction false} KeyDenotes(t: Table, s: string, id: nat, k: nat)
    requires t.Valid() && id < |t.records| && t.records[id].auto.Some? && k <= t.records[id].auto.value < |t.records[id].keys|
    requires KeysFromDefault(t, s, id, k).Some?
    ensures Denoted(LeafType(t, TRecord(id)), s).Some?
    decreases t.Rank().Of(TRecord(id)), 0, |t.records[id].keys| - k
  {
    var rec := t.records[id];
    assert t.RecordFits(id, t.Rank());
    assert rec.keys[k] in rec.keys;
    if rec.auto == Some(k) {
      DefaultDenotes(t, s, rec.keys[k].keyType);
    } else {
      KeyDenotes(t, s, id, k + 1);
    }
  }
}
