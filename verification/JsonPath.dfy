/** Parsed JSON documents, paths into them, printing of paths and following of references. */
module JsonPath {
  import opened Options

  datatype Result<+T, +E> = Ok(value: T) | Err(error: E)

  datatype JNode =
    | JObj(fields: seq<Field>)
    | JArr(items: seq<JNode>)
    | JStr(s: string)
    | JBool(b: bool)
    | JInt(i: int)
    | JReal(r: real)
    | JNull

  datatype Field = Field(key: string, value: JNode)

  function Find(fields: seq<Field>, key: string): Option<JNode> {
    if fields == [] then None
    else if fields[0].key == key then Some(fields[0].value)
    else Find(fields[1..], key)
  }

  // ---------------------------------------------------------------- paths

  datatype Step = Key(key: string) | Index(index: nat)

  function Child(node: JNode, step: Step): Option<JNode> {
    match step
    case Key(k) => if node.JObj? then Find(node.fields, k) else None
    case Index(i) => if node.JArr? && i < |node.items| then Some(node.items[i]) else None
  }

  function NodeAt(root: JNode, steps: seq<Step>): Option<JNode> {
    if steps == [] then Some(root)
    else
      match NodeAt(root, steps[..|steps| - 1])
      case None => None
      case Some(node) => Child(node, steps[|steps| - 1])
  }

  lemma NodeBelow(root: JNode, steps: seq<Step>, step: Step)
    ensures NodeAt(root, steps + [step]) == match NodeAt(root, steps) case None => None case Some(node) => Child(node, step)
  {
    assert (steps + [step])[..|steps|] == steps;
  }

  lemma {:induction false} NodeAbove(root: JNode, steps: seq<Step>, k: nat)
    requires k <= |steps| && NodeAt(root, steps).Some?
    ensures NodeAt(root, steps[..k]).Some?
    decreases |steps|
  {
    if k < |steps| {
      assert steps[..|steps| - 1][..k] == steps[..k];
      NodeAbove(root, steps[..|steps| - 1], k);
    } else {
      assert steps[..k] == steps;
    }
  }

  // ---------------------------------------------------------------- numbers

  predicate IsDigit(c: char) { '0' <= c <= '9' }

  predicate AllDigits(s: string) {
    forall c <- s :: IsDigit(c)
  }

  function DigitValue(c: char): nat
    requires IsDigit(c)
  {
    (c as int) - ('0' as int)
  }

  /** The number that a string of digits denotes; zero for the empty string. */
  function ParseNat(s: string): nat
    requires AllDigits(s)
  {
    if s == [] then 0 else ParseNat(s[..|s| - 1]) * 10 + DigitValue(s[|s| - 1])
  }

  function DigitChar(d: nat): (c: char)
    requires d < 10
    ensures IsDigit(c) && DigitValue(c) == d
  {
    (d + ('0' as int)) as char
  }

  /** Decimal digits of a number. */
  function Digits(n: nat): (s: string)
    ensures AllDigits(s) && s != []
  {
    if n < 10 then [DigitChar(n)] else Digits(n / 10) + [DigitChar(n % 10)]
  }

  lemma {:induction false} ParseDigits(n: nat)
    ensures ParseNat(Digits(n)) == n
  {
    var s := Digits(n);
    if n < 10 {
      assert s[..0] == [];
    } else {
      ParseDigits(n / 10);
      assert s[..|s| - 1] == Digits(n / 10);
    }
  }

  // ---------------------------------------------------------------- printing

  function StepText(step: Step): string {
    match step
    case Key(k) => k
    case Index(i) => Digits(i)
  }

  function Body(steps: seq<Step>): string {
    if steps == [] then "" else Body(steps[..|steps| - 1]) + "/" + StepText(steps[|steps| - 1])
  }

  function Str(steps: seq<Step>): string {
    if steps == [] then "/" else Body(steps)
  }

  lemma {:induction false} BodyPrefix(steps: seq<Step>, k: nat)
    requires k <= |steps|
    ensures Body(steps[..k]) <= Body(steps)
    decreases |steps|
  {
    if k < |steps| {
      BodyPrefix(steps[..|steps| - 1], k);
      assert steps[..|steps| - 1][..k] == steps[..k];
    } else {
      assert steps[..k] == steps;
    }
  }

  // ---------------------------------------------------------------- references

  datatype PathError =
    | ShouldBeArray
    | OutOfSize
    | AboveRoot
    | ShouldBeRecord
    | KeyNotFound(key: string)
    | CannotFollow
    | RefOfWrongType

  /** The first slash from a position on. */
  function FindSlash(s: string, pos: nat): (r: Option<nat>)
    requires pos <= |s|
    ensures r.Some? ==> pos <= r.value < |s| && s[r.value] == '/' && forall i | pos <= i < r.value :: s[i] != '/'
    ensures r.None? ==> forall i | pos <= i < |s| :: s[i] != '/'
    decreases |s| - pos
  {
    if pos == |s| then None else if s[pos] == '/' then Some(pos) else FindSlash(s, pos + 1)
  }

  /** Follows one component of an address. */
  function FollowOne(root: JNode, steps: seq<Step>, pos: nat, part: string): (r: Result<seq<Step>, PathError>)
    requires NodeAt(root, steps).Some?
    ensures r.Ok? ==> NodeAt(root, r.value).Some?
  {
    var head := NodeAt(root, steps).value;
    if pos == 0 && part == "" then Ok([])
    else if AllDigits(part) then
      if !head.JArr? then Err(ShouldBeArray)
      else if ParseNat(part) >= |head.items| then Err(OutOfSize)
      else
        NodeBelow(root, steps, Index(ParseNat(part)));
        Ok(steps + [Index(ParseNat(part))])
    else if part == ".." then
      if steps == [] then Err(AboveRoot) else Ok(steps[..|steps| - 1])
    else if !head.JObj? then Err(ShouldBeRecord)
    else if Find(head.fields, part).None? then Err(KeyNotFound(part))
    else
      NodeBelow(root, steps, Key(part));
      Ok(steps + [Key(part)])
  }

  /** Follows the components of an address from a position on. */
  function FollowFrom(root: JNode, steps: seq<Step>, address: string, pos: nat): (r: Result<seq<Step>, PathError>)
    requires NodeAt(root, steps).Some? && pos <= |address|
    ensures r.Ok? ==> NodeAt(root, r.value).Some?
    decreases |address| - pos
  {
    match FindSlash(address, pos)
    case None => Ok(steps)
    case Some(end) =>
      match FollowOne(root, steps, pos, address[pos..end])
      case Err(e) => Err(e)
      case Ok(next) => FollowFrom(root, next, address, end + 1)
  }

  /** A position in a document and the reference strings followed to get there. */
  datatype Cursor = Cursor(steps: seq<Step>, refs: set<string>)

  function FindRef(root: JNode, c: Cursor, ref: string): (r: Result<Cursor, PathError>)
    requires NodeAt(root, c.steps).Some?
    ensures r.Ok? ==> NodeAt(root, r.value.steps).Some? && r.value.refs == c.refs + {ref} && ref !in c.refs
  {
    if ref in c.refs then Err(CannotFollow)
    else
      match FollowFrom(root, c.steps, ref + "/", 0)
      case Err(e) => Err(e)
      case Ok(steps) => Ok(Cursor(steps, c.refs + {ref}))
  }

  /** A key that an address can name. */
  predicate GoodKey(key: string) {
    '/' !in key && !AllDigits(key) && key != ".."
  }

  predicate GoodKeys(steps: seq<Step>) {
    forall step <- steps :: step.Key? ==> GoodKey(step.key)
  }

  lemma {:induction false} FollowKeepsGood(root: JNode, steps: seq<Step>, address: string, pos: nat)
    requires NodeAt(root, steps).Some? && pos <= |address| && GoodKeys(steps)
    requires FollowFrom(root, steps, address, pos).Ok?
    ensures GoodKeys(FollowFrom(root, steps, address, pos).value)
    decreases |address| - pos
  {
    match FindSlash(address, pos)
    case None =>
    case Some(end) =>
      var part := address[pos..end];
      var next := FollowOne(root, steps, pos, part).value;
      assert '/' !in part;
      FollowKeepsGood(root, next, address, end + 1);
  }

  lemma StepTextHasNoSlash(step: Step)
    requires step.Key? ==> GoodKey(step.key)
    ensures '/' !in StepText(step)
  {
  }

  lemma BodyStep(steps: seq<Step>, k: nat)
    requires k < |steps|
    ensures Body(steps[..k + 1]) == Body(steps[..k]) + "/" + StepText(steps[k])
  {
    assert steps[..k + 1][..k] == steps[..k];
  }

  lemma SlashOfPrefix(a: string, t: string, b: string)
    requires a + "/" + t <= b
    ensures a + "/" <= b + "/"
  {
    assert (a + "/" + t)[..|a| + 1] == a + "/";
    assert b[..|a| + 1] == a + "/";
    assert (b + "/")[..|a| + 1] == b[..|a| + 1];
  }

  lemma AddressPrefix(steps: seq<Step>, k: nat)
    requires k <= |steps|
    ensures Body(steps[..k]) + "/" <= Body(steps) + "/"
  {
    hide Body, StepText;
    if k < |steps| {
      BodyPrefix(steps, k + 1);
      BodyStep(steps, k);
      SlashOfPrefix(Body(steps[..k]), StepText(steps[k]), Body(steps));
    } else {
      assert steps[..k] == steps;
    }
  }

  lemma TextBetween(a: string, text: string, address: string)
    requires a + "/" + text + "/" <= address && '/' !in text
    ensures var pos := |a| + 1;
            && pos + |text| < |address| && FindSlash(address, pos) == Some(pos + |text|) && address[pos..pos + |text|] == text
  {
    var whole, pos := a + "/" + text + "/", |a| + 1;
    assert forall i | 0 <= i < |whole| :: address[i] == whole[i];
    assert address[pos..pos + |text|] == text;
    assert address[pos + |text|] == whole[pos + |text|] == '/';
    forall i | pos <= i < pos + |text|
      ensures address[i] != '/'
    {
      assert address[i] == whole[i] == text[i - pos];
      assert text[i - pos] in text;
    }
  }

  /** The component of step `k` in a printed path. */
  lemma PrintedComponent(p: seq<Step>, k: nat)
    requires k < |p| && '/' !in StepText(p[k])
    ensures var address, pos, text := Body(p) + "/", |Body(p[..k])| + 1, StepText(p[k]);
            && pos + |text| < |address| && FindSlash(address, pos) == Some(pos + |text|) && address[pos..pos + |text|] == text
            && pos + |text| == |Body(p[..k + 1])|
  {
    hide Body, StepText;
    BodyStep(p, k);
    AddressPrefix(p, k + 1);
    TextBetween(Body(p[..k]), StepText(p[k]), Body(p) + "/");
  }

  lemma FollowPrintedOne(root: JNode, p: seq<Step>, k: nat, pos: nat)
    requires k < |p| && pos > 0 && NodeAt(root, p).Some? && (p[k].Key? ==> GoodKey(p[k].key))
    ensures NodeAt(root, p[..k]).Some? && FollowOne(root, p[..k], pos, StepText(p[k])) == Ok(p[..k + 1])
  {
    hide ParseNat, Digits, NodeAt, Find;
    NodeAbove(root, p, k);
    NodeAbove(root, p, k + 1);
    assert p[..k + 1] == p[..k] + [p[k]];
    NodeBelow(root, p[..k], p[k]);
    if p[k].Index? {
      ParseDigits(p[k].index);
    }
  }

  lemma FollowFirst(root: JNode, steps: seq<Step>, address: string, pos: nat, end: nat, next: seq<Step>)
    requires NodeAt(root, steps).Some? && pos <= |address| && FindSlash(address, pos) == Some(end)
    requires FollowOne(root, steps, pos, address[pos..end]) == Ok(next)
    ensures FollowFrom(root, steps, address, pos) == FollowFrom(root, next, address, end + 1)
  {
    hide FollowOne, ParseNat, Digits, NodeAt, Child, Find, Body, StepText;
  }

  lemma FollowNothing(root: JNode, steps: seq<Step>, address: string)
    requires NodeAt(root, steps).Some?
    ensures FollowFrom(root, steps, address, |address|) == Ok(steps)
  {
  }

  /** The address of a path, past the first `k` steps of it. */
  lemma {:induction false} FollowPrinted(root: JNode, p: seq<Step>, k: nat)
    requires k <= |p| && NodeAt(root, p).Some? && GoodKeys(p)
    ensures NodeAt(root, p[..k]).Some? && |Body(p[..k])| < |Body(p) + "/"|
    ensures FollowFrom(root, p[..k], Body(p) + "/", |Body(p[..k])| + 1) == Ok(p)
    decreases |p| - k
  {
    hide FollowOne, FollowFrom, Body, StepText, NodeAt;
    NodeAbove(root, p, k);
    BodyPrefix(p, k);
    if k == |p| {
      assert p[..k] == p;
      FollowNothing(root, p, Body(p) + "/");
    } else {
      assert p[k] in p;
      StepTextHasNoSlash(p[k]);
      PrintedComponent(p, k);
      FollowPrintedOne(root, p, k, |Body(p[..k])| + 1);
      FollowFirst(root, p[..k], Body(p) + "/", |Body(p[..k])| + 1, |Body(p[..k + 1])|, p[..k + 1]);
      FollowPrinted(root, p, k + 1);
    }
  }

  lemma FirstSlash(p: seq<Step>)
    requires p != []
    ensures Body(p) != "" && Body(p)[0] == '/'
  {
    BodyPrefix(p, 1);
    assert p[..1][..0] == [];
    assert Body(p[..1]) == "/" + StepText(p[0]);
  }

  /** A printed address starts at the root, wherever it is followed from. */
  lemma PrintedIsAbsolute(root: JNode, from: seq<Step>, p: seq<Step>)
    requires NodeAt(root, from).Some?
    ensures FollowFrom(root, from, Str(p) + "/", 0) == FollowFrom(root, [], Str(p) + "/", 1)
  {
    var address := Str(p) + "/";
    if p != [] {
      FirstSlash(p);
    }
    assert address[0] == '/' && address[0..0] == "";
    assert FindSlash(address, 0) == Some(0);
  }

  /**
   * A reference to the printed path of a node leads to that node, from any position, exactly when the node is not the root and
   * every key on the path can be named in an address.
   */
  lemma PrintedPathFoundIff(root: JNode, c: Cursor, p: seq<Step>)
    requires NodeAt(root, c.steps).Some? && NodeAt(root, p).Some? && Str(p) !in c.refs
    ensures FindRef(root, c, Str(p)) == Ok(Cursor(p, c.refs + {Str(p)})) <==> p != [] && GoodKeys(p)
  {
    PrintedIsAbsolute(root, c.steps, p);
    var followed := FollowFrom(root, [], Str(p) + "/", 1);
    if p == [] {
      RefToRoot(root);
    } else {
      if GoodKeys(p) {
        FollowPrinted(root, p, 0);
        assert p[..0] == [];
      } else if followed.Ok? {
        FollowKeepsGood(root, [], Str(p) + "/", 1);
      }
    }
  }

  /** The address of the root does not lead to the root but to the first item of a root array. */
  lemma RefToRoot(root: JNode)
    ensures FollowFrom(root, [], "//", 1)
         == if !root.JArr? then Err(ShouldBeArray) else if root.items == [] then Err(OutOfSize) else Ok([Index(0)])
  {
    assert "//"[1..1] == "";
    assert FindSlash("//", 1) == Some(1);
    assert FindSlash("//", 2) == None;
    if root.JArr? && root.items != [] {
      NodeBelow(root, [], Index(0));
    }
  }

  // ---------------------------------------------------------------- relative addresses

  /** A component of an address: one level up, or down by a step. */
  datatype Move = Up | Go(step: Step)

  predicate GoodMove(move: Move) {
    move.Go? && move.step.Key? ==> GoodKey(move.step.key)
  }

  function MoveText(move: Move): string {
    match move
    case Up => ".."
    case Go(step) => StepText(step)
  }

  /** The components, each with a slash behind it. */
  function Spelled(moves: seq<Move>): string {
    if moves == [] then "" else MoveText(moves[0]) + "/" + Spelled(moves[1..])
  }

  /** Where one move leads: to the parent, to the item or to the value of the key. */
  function Moved(root: JNode, steps: seq<Step>, move: Move): Result<seq<Step>, PathError>
    requires NodeAt(root, steps).Some?
  {
    match move
    case Up => if steps == [] then Err(AboveRoot) else Ok(steps[..|steps| - 1])
    case Go(step) =>
      if Child(NodeAt(root, steps).value, step).Some? then Ok(steps + [step])
      else
        match step
        case Key(key) => Err(if NodeAt(root, steps).value.JObj? then KeyNotFound(key) else ShouldBeRecord)
        case Index(_) => Err(if NodeAt(root, steps).value.JArr? then OutOfSize else ShouldBeArray)
  }

  function Walked(root: JNode, steps: seq<Step>, moves: seq<Move>): (r: Result<seq<Step>, PathError>)
    requires NodeAt(root, steps).Some?
    ensures r.Ok? ==> NodeAt(root, r.value).Some?
    decreases |moves|
  {
    if moves == [] then Ok(steps)
    else
      match Moved(root, steps, moves[0])
      case Err(e) => Err(e)
      case Ok(next) =>
        MovedStays(root, steps, moves[0]);
        Walked(root, next, moves[1..])
  }

  lemma MovedStays(root: JNode, steps: seq<Step>, move: Move)
    requires NodeAt(root, steps).Some? && Moved(root, steps, move).Ok?
    ensures NodeAt(root, Moved(root, steps, move).value).Some?
  {
    match move
    case Up => NodeAbove(root, steps, |steps| - 1);
    case Go(step) => NodeBelow(root, steps, step);
  }

  lemma MoveFollowed(root: JNode, steps: seq<Step>, pos: nat, move: Move)
    requires NodeAt(root, steps).Some? && GoodMove(move)
    ensures '/' !in MoveText(move) && MoveText(move) != ""
    ensures FollowOne(root, steps, pos, MoveText(move)) == Moved(root, steps, move)
  {
    hide ParseNat, Digits, NodeAt, Find;
    if move.Go? {
      StepTextHasNoSlash(move.step);
      if move.step.Index? {
        ParseDigits(move.step.index);
      }
    } else {
      assert !IsDigit(".."[0]);
    }
  }

  /** A relative address leads, component by component, up and down from where it is followed. */
  lemma {:induction false} MovesFollowed(root: JNode, steps: seq<Step>, before: string, moves: seq<Move>)
    requires NodeAt(root, steps).Some? && forall move <- moves :: GoodMove(move)
    ensures FollowFrom(root, steps, before + Spelled(moves), |before|) == Walked(root, steps, moves)
    decreases |moves|
  {
    hide FollowOne, NodeAt, MoveText, Moved;
    var address, pos := before + Spelled(moves), |before|;
    if moves != [] {
      assert moves[0] in moves;
      var text, rest := MoveText(moves[0]), Spelled(moves[1..]);
      MoveFollowed(root, steps, pos, moves[0]);
      SlashBehind(before, text, rest);
      assert address == before + text + "/" + rest;
      if Moved(root, steps, moves[0]).Ok? {
        MovedStays(root, steps, moves[0]);
        MovesFollowed(root, Moved(root, steps, moves[0]).value, before + text + "/", moves[1..]);
      }
    }
  }

  lemma SlashBehind(before: string, text: string, rest: string)
    requires '/' !in text
    ensures var address := before + text + "/" + rest;
            FindSlash(address, |before|) == Some(|before| + |text|) && address[|before|..|before| + |text|] == text
  {
    var address, whole := before + text + "/" + rest, before + text + "/";
    assert address == whole + rest;
    TextAt(before, text, whole, address);
  }

  lemma TextAt(before: string, text: string, whole: string, address: string)
    requires whole == before + text + "/" && whole <= address && '/' !in text
    ensures FindSlash(address, |before|) == Some(|before| + |text|) && address[|before|..|before| + |text|] == text
  {
    assert forall i | 0 <= i < |whole| :: address[i] == whole[i];
    assert address[|before|..|before| + |text|] == text;
    assert address[|before| + |text|] == whole[|before| + |text|] == '/';
    forall i | |before| <= i < |before| + |text|
      ensures address[i] != '/'
    {
      assert address[i] == whole[i] == text[i - |before|];
      assert text[i - |before|] in text;
    }
  }

  function Ups(n: nat): seq<Move> {
    seq(n, _ => Up)
  }

  function Downs(steps: seq<Step>): seq<Move> {
    seq(|steps|, i requires 0 <= i < |steps| => Go(steps[i]))
  }

  lemma {:induction false} WalkedUp(root: JNode, steps: seq<Step>, n: nat, more: seq<Move>)
    requires NodeAt(root, steps).Some? && n <= |steps|
    ensures NodeAt(root, steps[..|steps| - n]).Some?
    ensures Walked(root, steps, Ups(n) + more) == Walked(root, steps[..|steps| - n], more)
    decreases n
  {
    NodeAbove(root, steps, |steps| - n);
    if n > 0 {
      NodeAbove(root, steps, |steps| - 1);
      assert (Ups(n) + more)[1..] == Ups(n - 1) + more;
      WalkedUp(root, steps[..|steps| - 1], n - 1, more);
      assert steps[..|steps| - 1][..|steps| - 1 - (n - 1)] == steps[..|steps| - n];
    } else {
      assert Ups(0) + more == more && steps[..|steps|] == steps;
    }
  }

  lemma {:induction false} WalkedDown(root: JNode, steps: seq<Step>, down: seq<Step>)
    requires NodeAt(root, steps).Some? && NodeAt(root, steps + down).Some?
    ensures Walked(root, steps, Downs(down)) == Ok(steps + down)
    decreases |down|
  {
    if down == [] {
      assert steps + down == steps;
    } else {
      var next := steps + [down[0]];
      assert (steps + down)[..|steps| + 1] == next && next[..|steps|] == steps;
      NodeAbove(root, steps + down, |steps| + 1);
      NodeBelow(root, steps, down[0]);
      assert Downs(down)[1..] == Downs(down[1..]);
      assert next + down[1..] == steps + down;
      WalkedDown(root, next, down[1..]);
    }
  }

  /** `n` levels up and then down along `down` leads to the node there, if its keys can be named. */
  lemma UpAndDownFound(root: JNode, steps: seq<Step>, n: nat, down: seq<Step>)
    requires NodeAt(root, steps).Some? && n <= |steps| && NodeAt(root, steps[..|steps| - n] + down).Some? && GoodKeys(down)
    ensures FollowFrom(root, steps, Spelled(Ups(n) + Downs(down)), 0) == Ok(steps[..|steps| - n] + down)
  {
    NodeAbove(root, steps, |steps| - n);
    var moves := Ups(n) + Downs(down);
    forall move | move in moves
      ensures GoodMove(move)
    {
      var i :| 0 <= i < |moves| && moves[i] == move;
      if i >= n {
        assert down[i - n] in down;
      }
    }
    MovesFollowed(root, steps, "", moves);
    assert "" + Spelled(moves) == Spelled(moves);
    WalkedUp(root, steps, n, Downs(down));
    WalkedDown(root, steps[..|steps| - n], down);
  }

  // ---------------------------------------------------------------- the cursor that walks the document

  lemma SliceOfPrefix<X>(s: seq<X>, n: nat, k: nat)
    requires 1 <= k <= n <= |s|
    ensures s[..n][1..k] == s[1..k]
  {
  }

  class JSONPath {
    const root: JNode
    /** Steps from the root, after an entry for the root itself. */
    var path: seq<Step>
    var nodes: seq<JNode>
    var previousReferences: set<string>

    ghost predicate Valid()
      reads this
    {
      && 0 < |path| == |nodes| && path[0] == Key("/")
      && forall i | 0 <= i < |nodes| :: NodeAt(root, path[1..i + 1]) == Some(nodes[i])
    }

    function Steps(): seq<Step>
      requires |path| > 0
      reads this
    {
      path[1..]
    }

    function AsCursor(): Cursor
      requires |path| > 0
      reads this
    {
      Cursor(Steps(), previousReferences)
    }

    function Head(): JNode
      requires Valid()
      reads this
    {
      nodes[|nodes| - 1]
    }

    lemma HeadIsNode()
      requires Valid()
      ensures NodeAt(root, Steps()) == Some(Head())
    {
      assert path[1..|nodes| - 1 + 1] == path[1..];
    }

    constructor (root_: JNode)
      ensures Valid() && root == root_ && AsCursor() == Cursor([], {})
    {
      root := root_;
      path, nodes, previousReferences := [Key("/")], [root_], {};
    }

    constructor Copy(p: JSONPath)
      requires p.Valid()
      ensures Valid() && root == p.root && AsCursor() == p.AsCursor()
    {
      root := p.root;
      path, nodes, previousReferences := p.path, p.nodes, p.previousReferences;
    }

    method Push(step: Step, node: JNode)
      requires Valid() && Child(Head(), step) == Some(node)
      modifies this`path, this`nodes
      ensures Valid() && Steps() == old(Steps()) + [step] && Head() == node
    {
      HeadIsNode();
      NodeBelow(root, Steps(), step);
      ghost var was := path;
      path, nodes := path + [step], nodes + [node];
      forall i | 0 <= i < |nodes|
        ensures NodeAt(root, path[1..i + 1]) == Some(nodes[i])
      {
        if i + 1 < |nodes| {
          assert path[1..i + 1] == was[1..i + 1];
        } else {
          assert path[1..i + 1] == was[1..] + [step];
        }
      }
    }

    /** Into an item of an array; nothing happens if there is none. */
    method DownIndex(index: nat) returns (node: Option<JNode>)
      requires Valid() && Head().JArr?
      modifies this`path, this`nodes
      ensures Valid() && node == Child(old(Head()), Index(index))
      ensures Steps() == if node.Some? then old(Steps()) + [Index(index)] else old(Steps())
    {
      if index >= |Head().items| {
        return None;
      }
      node := Some(Head().items[index]);
      Push(Index(index), Head().items[index]);
    }

    /** Into the value of a key; nothing happens if there is none. */
    method DownKey(key: string) returns (node: Option<JNode>)
      requires Valid() && Head().JObj?
      modifies this`path, this`nodes
      ensures Valid() && node == Child(old(Head()), Key(key))
      ensures Steps() == if node.Some? then old(Steps()) + [Key(key)] else old(Steps())
    {
      node := Find(Head().fields, key);
      if node.Some? {
        Push(Key(key), node.value);
      }
    }

    method Up()
      requires Valid()
      modifies this`path, this`nodes
      ensures Valid() && Steps() == if old(Steps()) == [] then [] else old(Steps())[..|old(Steps())| - 1]
    {
      if |path| > 1 {
        ghost var was := path;
        path, nodes := path[..|path| - 1], nodes[..|nodes| - 1];
        forall i | 0 <= i < |nodes|
          ensures NodeAt(root, path[1..i + 1]) == Some(nodes[i])
        {
          SliceOfPrefix(was, |path|, i + 1);
        }
      }
    }

    method GoToRoot()
      requires Valid()
      modifies this`path, this`nodes
      ensures Valid() && Steps() == []
    {
      assert path[1..1] == [];
      path, nodes := path[..1], nodes[..1];
    }

    /** The address if the head is a reference: an object whose only key is REF. */
    method GetRefFromHead() returns (ref: Result<Option<string>, PathError>)
      requires Valid()
      ensures forall s :: ref == Ok(Some(s)) <==> Head() == JObj([Field("REF", JStr(s))])
      ensures ref == Err(RefOfWrongType) <==> exists v :: Head() == JObj([Field("REF", v)]) && !v.JStr?
      ensures ref == RefOf(Head())
    {
      var head := Head();
      RefIff(head);
      if !head.JObj? || |head.fields| != 1 || head.fields[0].key != "REF" {
        return Ok(None);
      }
      if !head.fields[0].value.JStr? {
        return Err(RefOfWrongType);
      }
      return Ok(Some(head.fields[0].value.s));
    }

    /** Follows one component, on a path that already belongs to the reference. */
    method FollowPart(pos: nat, part: string) returns (error: Option<PathError>)
      requires Valid()
      modifies this`path, this`nodes
      ensures Valid()
      ensures NodeAt(root, old(Steps())).Some?
      ensures match FollowOne(root, old(Steps()), pos, part)
              case Ok(steps) => error.None? && Steps() == steps
              case Err(e) => error == Some(e)
    {
      HeadIsNode();
      if pos == 0 && part == "" {
        GoToRoot();
      } else if AllDigits(part) {
        if !Head().JArr? {
          return Some(ShouldBeArray);
        }
        var node := DownIndex(ParseNat(part));
        if node.None? {
          return Some(OutOfSize);
        }
      } else if part == ".." {
        if |nodes| - 1 <= 0 {
          return Some(AboveRoot);
        }
        Up();
      } else {
        if !Head().JObj? {
          return Some(ShouldBeRecord);
        }
        var node := DownKey(part);
        if node.None? {
          return Some(KeyNotFound(part));
        }
      }
      return None;
    }

    /** A new path that the address leads to. */
    method FindRefNode(ref: string) returns (refPath: JSONPath, error: Option<PathError>)
      requires Valid()
      ensures fresh(refPath) && refPath.Valid() && refPath.root == root
      ensures NodeAt(root, Steps()).Some?
      ensures match FindRef(root, AsCursor(), ref)
              case Ok(c) => error.None? && refPath.AsCursor() == c
              case Err(e) => error == Some(e)
    {
      hide FollowOne, NodeAt, ParseNat;
      HeadIsNode();
      refPath := new JSONPath.Copy(this);
      if ref in previousReferences {
        return refPath, Some(CannotFollow);
      }
      refPath.previousReferences := refPath.previousReferences + {ref};
      var address, pos := ref + "/", 0;
      ghost var start := Steps();
      while true
        invariant fresh(refPath) && refPath.Valid() && refPath.root == root && pos <= |address|
        invariant refPath.previousReferences == previousReferences + {ref} && NodeAt(root, refPath.Steps()).Some?
        invariant FollowFrom(root, refPath.Steps(), address, pos) == FollowFrom(root, start, address, 0)
        decreases |address| - pos
      {
        var end := FindSlash(address, pos);
        if end.None? {
          break;
        }
        ghost var steps := refPath.Steps();
        var e := refPath.FollowPart(pos, address[pos..end.value]);
        if e.Some? {
          return refPath, e;
        }
        FollowFirst(root, steps, address, pos, end.value, refPath.Steps());
        pos := end.value + 1;
      }
      error := None;
    }

    /** Prints the path. */
    method Output() returns (s: string)
      requires Valid()
      ensures s == Str(Steps())
    {
      if |nodes| - 1 == 0 {
        return "/";
      }
      s := "";
      for i := 1 to |path|
        invariant s == Body(path[1..i])
      {
        assert path[1..i + 1][..i - 1] == path[1..i];
        match path[i]
        case Key(k) => s := s + "/" + k;
        case Index(n) => s := s + "/" + Digits(n);
      }
      assert path[1..|path|] == path[1..];
    }
  }

  /** References are the objects with the only key REF; one without a string is an error, and nothing else is. */
  lemma RefIff(node: JNode)
    ensures forall s :: RefOf(node) == Ok(Some(s)) <==> node == JObj([Field("REF", JStr(s))])
    ensures RefOf(node).Err? <==> exists v :: node == JObj([Field("REF", v)]) && !v.JStr?
  {
    if node.JObj? && |node.fields| == 1 && node.fields[0].key == "REF" {
      assert node == JObj([Field("REF", node.fields[0].value)]);
    }
  }

  function RefOf(node: JNode): Result<Option<string>, PathError> {
    if !node.JObj? || |node.fields| != 1 || node.fields[0].key != "REF" then Ok(None)
    else if !node.fields[0].value.JStr? then Err(RefOfWrongType)
    else Ok(Some(node.fields[0].value.s))
  }
}
