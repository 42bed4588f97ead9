/** Declared input types, their default values, and the storage that input is read into. */
module InputTypes {
  import opened Options
  import opened JsonPath

  // ---------------------------------------------------------------- storage

  datatype Storage =
    | SArray(items: seq<Storage>)
    | SInt(i: int)
    | SDouble(d: real)
    | SBool(b: bool)
    | SString(s: string)
    | SNull

  // ---------------------------------------------------------------- types

  datatype Type =
    | TRecord(id: nat)
    | TAbstract(id: nat)
    | TArray(item: Type, min: nat, max: nat)
    | TInteger(lo: int, hi: int)
    | TDouble(low: real, high: real)
    | TBool
    | TSelection(names: seq<Choice>)
    | TString
    | TFileName(input: bool)

  datatype Choice = Choice(name: string, value: int)

  datatype Default = Obligatory | Optional | AtReadTime | AtDeclaration(text: string)

  datatype KeyDef = KeyDef(name: string, keyType: Type, default: Default)

  datatype RecordDef = RecordDef(name: string, keys: seq<KeyDef>, auto: Option<nat>)

  /** An abstract record: its descendants among the records, and the name of the default one. */
  datatype AbstractDef = AbstractDef(children: seq<nat>, default: Option<string>)

  /** Heights of the automatic conversions. */
  datatype Ranks = Ranks(records: seq<nat>, abstracts: seq<nat>) {
    function Of(t: Type): nat {
      match t
      case TRecord(id) => if id < |records| then records[id] else 0
      case TAbstract(id) => if id < |abstracts| then abstracts[id] else 0
      case TArray(item, _, _) => Of(item) + 1
      case _ => 0
    }
  }

  function NameToInt(names: seq<Choice>, name: string): Option<int> {
    if names == [] then None
    else if names[0].name == name then Some(names[0].value)
    else NameToInt(names[1..], name)
  }

  /** All records and abstract records; the types may refer to each other. */
  datatype Table = Table(records: seq<RecordDef>, abstracts: seq<AbstractDef>) {
    predicate Knows(t: Type) {
      match t
      case TRecord(id) => id < |records|
      case TAbstract(id) => id < |abstracts|
      case TArray(item, min, max) => min <= max && Knows(item)
      case _ => true
    }

    predicate ChildrenKnown(id: nat)
      requires id < |abstracts|
    {
      forall i | 0 <= i < |abstracts[id].children| :: abstracts[id].children[i] < |records|
    }

    /** The selection of descendants by their names. */
    function Choices(id: nat, k: nat): (c: seq<Choice>)
      requires id < |abstracts| && k <= |abstracts[id].children| && ChildrenKnown(id)
      ensures |c| == k && forall j | 0 <= j < k :: c[j] == Choice(records[abstracts[id].children[j]].name, j)
    {
      if k == 0 then []
      else
        assert abstracts[id].children[k - 1] in abstracts[id].children;
        Choices(id, k - 1) + [Choice(records[abstracts[id].children[k - 1]].name, k - 1)]
    }

    function TypeSelection(id: nat): Type
      requires id < |abstracts| && ChildrenKnown(id)
    {
      TSelection(Choices(id, |abstracts[id].children|))
    }

    ghost predicate RecordFits(id: nat, ranks: Ranks)
      requires id < |records|
    {
      var rec := records[id];
      && (forall key <- rec.keys :: Knows(key.keyType))
      && (rec.auto.Some? ==>
            && rec.auto.value < |rec.keys|
            && (forall k | 0 <= k < |rec.keys| && k != rec.auto.value :: rec.keys[k].default.AtDeclaration?)
            && forall key <- rec.keys :: ranks.Of(key.keyType) < ranks.Of(TRecord(id)))
    }

    /** Descendants have different names and start with the key TYPE, whose default is their own name. */
    ghost predicate AbstractFits(id: nat, ranks: Ranks)
      requires id < |abstracts|
    {
      var a := abstracts[id];
      && ChildrenKnown(id)
      && (forall i, j | 0 <= i < j < |a.children| :: records[a.children[i]].name != records[a.children[j]].name)
      && (forall i | 0 <= i < |a.children| :: DescendantFits(id, a.children[i]))
      && (a.default.Some? ==>
            && NameToInt(Choices(id, |a.children|), a.default.value).Some?
            && forall i | 0 <= i < |a.children| && records[a.children[i]].name == a.default.value ::
                 ranks.Of(TRecord(a.children[i])) < ranks.Of(TAbstract(id)))
    }

    ghost predicate DescendantFits(id: nat, r: nat)
      requires id < |abstracts| && r < |records| && ChildrenKnown(id)
    {
      var rec := records[r];
      && |rec.keys| > 0 && rec.keys[0] == KeyDef("TYPE", TypeSelection(id), AtDeclaration(rec.name))
      && rec.auto != Some(0)
    }

    /** The table is complete and automatic conversion is well-founded. */
    ghost predicate Fits(ranks: Ranks) {
      && |ranks.records| == |records| && |ranks.abstracts| == |abstracts|
      && (forall id | 0 <= id < |records| :: RecordFits(id, ranks))
      && (forall id | 0 <= id < |abstracts| :: AbstractFits(id, ranks))
    }

    ghost predicate Valid() {
      exists ranks: Ranks :: Fits(ranks)
    }

    ghost function Rank(): (ranks: Ranks)
      requires Valid()
      ensures Fits(ranks)
    {
      var ranks: Ranks :| Fits(ranks);
      ranks
    }

    /** The descendant that an abstract record is converted to. */
    function DefaultChild(id: nat): (r: Option<nat>)
      requires Valid() && id < |abstracts|
      ensures r.Some? <==> abstracts[id].default.Some?
      ensures r.Some? ==> r.value < |records| && Rank().Of(TRecord(r.value)) < Rank().Of(TAbstract(id))
      ensures r.Some? ==> r.value in abstracts[id].children
    {
      assert AbstractFits(id, Rank());
      var a := abstracts[id];
      if a.default.None? then None
      else
        var i := NameToInt(Choices(id, |a.children|), a.default.value).value;
        ChoiceOf(id, |a.children|, a.default.value);
        assert a.children[i] in a.children;
        Some(a.children[i])
    }

    /** Looking up a name among the descendants gives the index of the descendant with the name. */
    lemma {:induction false} ChoiceOf(id: nat, k: nat, name: string)
      requires id < |abstracts| && k <= |abstracts[id].children| && ChildrenKnown(id)
      ensures var i := NameToInt(Choices(id, k), name);
              i.Some? ==> 0 <= i.value < k && records[abstracts[id].children[i.value]].name == name
    {
      NameFound(Choices(id, k), name);
    }
  }

  lemma {:induction false} NameFound(names: seq<Choice>, name: string)
    ensures match NameToInt(names, name)
            case Some(v) => exists i :: 0 <= i < |names| && names[i] == Choice(name, v)
            case None => forall i | 0 <= i < |names| :: names[i].name != name
  {
    if names != [] {
      NameFound(names[1..], name);
      if names[0].name == name {
        assert names[0] == Choice(name, NameToInt(names, name).value);
      } else {
        match NameToInt(names[1..], name)
        case Some(v) =>
          var i :| 0 <= i < |names[1..]| && names[1..][i] == Choice(name, v);
          assert names[i + 1] == Choice(name, v);
        case None =>
          forall i | 0 <= i < |names|
            ensures names[i].name != name
          {
            assert i > 0 ==> names[i] == names[1..][i - 1];
          }
      }
    }
  }

  // ---------------------------------------------------------------- scalars

  const INT_RANGE := 0x1_0000_0000

  /** A 64-bit integer of JSON read as a 32-bit one. */
  function WrapInt(i: int): int {
    (i + INT_RANGE / 2) % INT_RANGE - INT_RANGE / 2
  }

  predicate IsInt(i: int) { -INT_RANGE / 2 <= i < INT_RANGE / 2 }

  lemma WrapKeeps(i: int)
    requires IsInt(i)
    ensures WrapInt(i) == i
  {
  }

  predicate IsBlank(c: char) { c == ' ' || c == '\t' || c == '\n' || c == '\U{b}' || c == '\U{c}' || c == '\r' }

  function SkipBlanks(s: string): string {
    if s != [] && IsBlank(s[0]) then SkipBlanks(s[1..]) else s
  }

  /** Sign and the text behind it. */
  function TakeSign(s: string): (int, string) {
    if s != [] && s[0] == '-' then (-1, s[1..]) else if s != [] && s[0] == '+' then (1, s[1..]) else (1, s)
  }

  function CountDigits(s: string): (n: nat)
    ensures n <= |s| && AllDigits(s[..n])
  {
    if s != [] && IsDigit(s[0]) then
      var n := CountDigits(s[1..]);
      assert s[..n + 1] == [s[0]] + s[1..][..n];
      n + 1
    else 0
  }

  /** The integer that is the whole text, if there is one and it fits. */
  function ParseInt(s: string): (r: Option<int>)
    ensures r.Some? ==> IsInt(r.value)
  {
    var (sign, digits) := TakeSign(SkipBlanks(s));
    var n := CountDigits(digits);
    if n == 0 || n < |digits| then None
    else
      var v := sign * ParseNat(digits[..n]);
      if IsInt(v) then Some(v) else None
  }

  /** An integer as it is printed. */
  function IntText(i: int): string {
    if i < 0 then "-" + Digits(-i) else Digits(i)
  }

  lemma {:induction false} AllCounted(s: string)
    requires AllDigits(s)
    ensures CountDigits(s) == |s|
  {
    if s != [] {
      AllCounted(s[1..]);
    }
  }

  lemma {:induction false} BlanksSkipped(b: string, s: string)
    requires (forall c <- b :: IsBlank(c)) && s != [] && !IsBlank(s[0])
    ensures SkipBlanks(b + s) == s
  {
    if b == [] {
      assert b + s == s;
    } else {
      assert (b + s)[1..] == b[1..] + s;
      BlanksSkipped(b[1..], s);
    }
  }

  /** A printed integer, also behind blanks or a plus, is read back exactly if it fits into 32 bits, and refused otherwise. */
  lemma PrintedIntParsedIff(blanks: string, plus: bool, i: int)
    requires (forall c <- blanks :: IsBlank(c)) && (plus ==> i >= 0)
    ensures ParseInt(blanks + (if plus then "+" else "") + IntText(i)) == if IsInt(i) then Some(i) else None
  {
    var n := if i < 0 then -i else i;
    var d := Digits(n);
    var text := (if plus then "+" else "") + IntText(i);
    assert blanks + (if plus then "+" else "") + IntText(i) == blanks + text;
    assert d[0] in d;
    BlanksSkipped(blanks, text);
    assert TakeSign(text) == (if i < 0 then -1 else 1, d) by {
      assert plus || i < 0 ==> text[1..] == d;
      assert !plus && i >= 0 ==> text == d;
    }
    AllCounted(d);
    assert d[..|d|] == d;
    ParseDigits(n);
  }

  function Pow10(n: nat): (p: real)
    ensures p > 0.0
  {
    if n == 0 then 1.0 else 10.0 * Pow10(n - 1)
  }

  /** The exponent at the end of a number; zero if there is no text left. */
  function ParseExponent(s: string): Option<int> {
    if s == [] then Some(0)
    else if s[0] != 'e' && s[0] != 'E' then None
    else
      var (sign, digits) := TakeSign(s[1..]);
      var n := CountDigits(digits);
      if n == 0 || n < |digits| then None else Some(sign * ParseNat(digits[..n]))
  }

  /** `x` times ten to the `e`. */
  function Shifted(x: real, e: int): real {
    if e >= 0 then x * Pow10(e) else x / Pow10(-e)
  }

  /** The decimal number of a sign, the digits before and behind the point, and the text of the exponent. */
  function FromPieces(sign: int, whole: string, fraction: string, tail: string): Option<real>
    requires AllDigits(whole) && AllDigits(fraction)
  {
    match ParseExponent(tail)
    case None => None
    case Some(e) => Some(Shifted(sign as real * (ParseNat(whole) as real + ParseNat(fraction) as real / Pow10(|fraction|)), e))
  }

  /** The decimal number that is the whole text, if there is one. */
  function ParseReal(s: string): Option<real> {
    var (sign, text) := TakeSign(SkipBlanks(s));
    var n := CountDigits(text);
    var rest := text[n..];
    var m := if rest != [] && rest[0] == '.' then CountDigits(rest[1..]) else 0;
    if n + m == 0 then None
    else if rest != [] && rest[0] == '.' then FromPieces(sign, text[..n], rest[1..][..m], rest[1..][m..])
    else FromPieces(sign, text[..n], "", rest)
  }

  lemma {:induction false} DigitsThenOther(d: string, rest: string)
    requires AllDigits(d) && (rest != [] ==> !IsDigit(rest[0]))
    ensures CountDigits(d + rest) == |d|
  {
    if d == [] {
      assert d + rest == rest;
    } else {
      assert (d + rest)[1..] == d[1..] + rest;
      DigitsThenOther(d[1..], rest);
    }
  }

  lemma ExponentFound(sign: int, s: string, d: string)
    requires s != "" && s[0] == 'e' && TakeSign(s[1..]) == (sign, d) && AllDigits(d) && d != ""
    ensures ParseExponent(s) == Some(sign * ParseNat(d))
  {
    hide ParseNat, TakeSign, CountDigits;
    AllCounted(d);
    assert d[..|d|] == d;
  }

  lemma ExponentParsed(e: int)
    ensures ParseExponent("e" + IntText(e)) == Some(e)
  {
    hide ParseNat, ParseExponent, CountDigits, Digits;
    var s, n := "e" + IntText(e), if e < 0 then -e else e;
    var d := Digits(n);
    assert s[1..] == IntText(e) && s[0] == 'e';
    assert d[0] in d;
    assert e < 0 ==> IntText(e)[1..] == d;
    ExponentFound(if e < 0 then -1 else 1, s, d);
    ParseDigits(n);
  }

  lemma SignTaken(minus: bool, text: string)
    requires text != "" && IsDigit(text[0])
    ensures TakeSign(SkipBlanks((if minus then "-" else "") + text)) == (if minus then -1 else 1, text)
  {
    var s := (if minus then "-" else "") + text;
    assert !IsBlank(s[0]);
    assert minus ==> s[1..] == text;
    assert !minus ==> s == text;
  }

  lemma PiecesFound(s: string, sign: int, d: string, f: string, tail: string)
    requires AllDigits(d) && AllDigits(f) && f != "" && (tail != "" ==> !IsDigit(tail[0]))
    requires TakeSign(SkipBlanks(s)) == (sign, d + ("." + (f + tail)))
    ensures ParseReal(s) == FromPieces(sign, d, f, tail)
  {
    hide FromPieces, CountDigits, TakeSign, SkipBlanks;
    var rest := "." + (f + tail);
    var text := d + rest;
    DigitsThenOther(d, rest);
    DigitsThenOther(f, tail);
    assert text[..|d|] == d && text[|d|..] == rest;
    assert rest[0] == '.' && rest[1..] == f + tail;
    assert (f + tail)[..|f|] == f && (f + tail)[|f|..] == tail;
  }

  /** `c` has the digits of `a` and behind them `n` digits, those of `b`. */
  predicate Joined(a: nat, b: nat, n: nat, c: nat) {
    c as real == a as real * Pow10(n) + b as real
  }

  lemma OneMoreDigit(a: nat, b: nat, n: nat, c: nat, last: nat)
    requires Joined(a, b, n, c)
    ensures Joined(a, 10 * b + last, n + 1, 10 * c + last)
  {
    var x, p := a as real, Pow10(n);
    assert x * (10.0 * p) == 10.0 * (x * p);
  }

  /** Digits behind digits shift them by powers of ten. */
  lemma {:induction false} DigitsJoined(d: string, f: string)
    requires AllDigits(d) && AllDigits(f)
    ensures Joined(ParseNat(d), ParseNat(f), |f|, ParseNat(d + f))
  {
    if f == "" {
      assert d + f == d;
    } else {
      hide Joined;
      var n := |f| - 1;
      var init := f[..n];
      assert (d + f)[..|d + f| - 1] == d + init;
      DigitsJoined(d, init);
      OneMoreDigit(ParseNat(d), ParseNat(init), n, ParseNat(d + init), DigitValue(f[n]));
    }
  }

  /** `v` is `m` with the decimal point `n` places to the left, times ten to the `e`. */
  predicate PointSet(v: real, m: int, n: nat, e: int) {
    if e >= 0 then v * Pow10(n) == m as real * Pow10(e) else (v * Pow10(n)) * Pow10(-e) == m as real
  }

  lemma PointOfShifted(whole: nat, part: nat, n: nat, e: int, sign: int, all: nat)
    requires Joined(whole, part, n, all)
    ensures PointSet(Shifted(sign as real * (whole as real + part as real / Pow10(n)), e), sign * all, n, e)
  {
    SignedFraction(sign as real, whole as real, part as real, Pow10(n), all as real);
    SignedNat(sign, all);
    PointOfWhole(sign as real * (whole as real + part as real / Pow10(n)), sign * all, n, e);
  }

  lemma PointOfWhole(y: real, m: int, n: nat, e: int)
    requires y * Pow10(n) == m as real
    ensures PointSet(Shifted(y, e), m, n, e)
  {
    hide Pow10;
    if e >= 0 {
      Multiplied(Shifted(y, e), y, Pow10(e), Pow10(n), m as real);
    } else {
      Divided(Shifted(y, e), y, Pow10(-e), Pow10(n), m as real);
    }
  }

  lemma SignedNat(sign: int, n: nat)
    ensures (sign * n) as real == sign as real * n as real
  {
  }

  lemma SignedFraction(s: real, whole: real, part: real, p: real, m: real)
    requires p > 0.0 && m == whole * p + part
    ensures (s * (whole + part / p)) * p == s * m
  {
    var x := whole + part / p;
    Fraction(whole, part, p);
    assert x * p == m;
    Commuted(s, x, p);
  }

  lemma Fraction(whole: real, part: real, p: real)
    requires p > 0.0
    ensures (whole + part / p) * p == whole * p + part
  {
  }

  lemma Commuted(a: real, b: real, c: real)
    ensures (a * b) * c == a * (b * c) == (a * c) * b
  {
  }

  lemma Multiplied(v: real, y: real, q: real, p: real, m: real)
    requires v == y * q && y * p == m
    ensures v * p == m * q
  {
    Commuted(y, q, p);
  }

  lemma Divided(v: real, y: real, q: real, p: real, m: real)
    requires q > 0.0 && v == y / q && y * p == m
    ensures (v * p) * q == m
  {
    assert v * q == y;
    Commuted(v, q, p);
  }

  /** A decimal number with fraction and exponent is read to its value: all its digits as an integer, with the point set. */
  lemma DecimalParsed(minus: bool, a: nat, f: string, e: int)
    requires AllDigits(f) && f != ""
    ensures AllDigits(Digits(a) + f)
    ensures var v := ParseReal((if minus then "-" else "") + (Digits(a) + ("." + (f + ("e" + IntText(e))))));
            v.Some? && PointSet(v.value, (if minus then -1 else 1) * ParseNat(Digits(a) + f), |f|, e)
  {
    hide Digits, ParseNat, Pow10, Shifted, ParseReal, ParseExponent, CountDigits, TakeSign, SkipBlanks, IntText, PointSet, Joined;
    var d, tail, sign := Digits(a), "e" + IntText(e), if minus then -1 else 1;
    assert d[0] in d;
    SignTaken(minus, d + ("." + (f + tail)));
    PiecesFound((if minus then "-" else "") + (d + ("." + (f + tail))), sign, d, f, tail);
    ExponentParsed(e);
    DigitsJoined(d, f);
    PointOfShifted(ParseNat(d), ParseNat(f), |f|, e, sign, ParseNat(d + f));
  }

  predicate FileNameFits(input: bool, s: string) {
    input || s == "" || s[0] != '/'
  }

  predicate SizeFits(t: Type, n: nat)
    requires t.TArray?
  {
    t.min <= n <= t.max
  }

  /** A scalar from a default text. */
  function ScalarFromDefault(t: Type, s: string): Option<Storage>
    requires !t.TRecord? && !t.TAbstract? && !t.TArray?
  {
    match t
    case TInteger(lo, hi) =>
      var v := ParseInt(s);
      if v.Some? && lo <= v.value <= hi then Some(SInt(v.value)) else None
    case TDouble(low, high) =>
      var v := ParseReal(s);
      if v.Some? && low <= v.value <= high then Some(SDouble(v.value)) else None
    case TBool => if s == "true" then Some(SBool(true)) else if s == "false" then Some(SBool(false)) else None
    case TSelection(names) =>
      var v := NameToInt(names, s);
      if v.Some? then Some(SInt(v.value)) else None
    case TString => Some(SString(s))
    case TFileName(input) => if FileNameFits(input, s) then Some(SString(s)) else None
  }

  /** A scalar from a node of the document. */
  function ScalarFromNode(t: Type, node: JNode): Option<Storage>
    requires !t.TRecord? && !t.TAbstract? && !t.TArray?
  {
    match t
    case TInteger(lo, hi) => if node.JInt? && lo <= WrapInt(node.i) <= hi then Some(SInt(WrapInt(node.i))) else None
    case TDouble(low, high) =>
      if node.JReal? && low <= node.r <= high then Some(SDouble(node.r))
      else if node.JInt? && low <= WrapInt(node.i) as real <= high then Some(SDouble(WrapInt(node.i) as real))
      else None
    case TBool => if node.JBool? then Some(SBool(node.b)) else None
    case TSelection(names) =>
      if node.JStr? && NameToInt(names, node.s).Some? then Some(SInt(NameToInt(names, node.s).value)) else None
    case TString => if node.JStr? then Some(SString(node.s)) else None
    case TFileName(input) => if node.JStr? && FileNameFits(input, node.s) then Some(SString(node.s)) else None
  }

  // ---------------------------------------------------------------- storage from defaults

  /** Storage from a default text, through automatic conversions. */
  function FromDefault(t: Table, s: string, ty: Type): Option<Storage>
    requires t.Valid() && t.Knows(ty)
    decreases t.Rank().Of(ty), 1, 0
  {
    match ty
    case TAbstract(id) =>
      var child := t.DefaultChild(id);
      if child.Some? then FromDefault(t, s, TRecord(child.value)) else None
    case TRecord(id) =>
      assert t.RecordFits(id, t.Rank());
      var rec := t.records[id];
      if rec.auto.None? then None
      else
        var items := KeysFromDefault(t, s, id, 0);
        if items.Some? then Some(SArray(items.value)) else None
    case TArray(item, _, _) =>
      if !SizeFits(ty, 1) then None
      else
        var it := FromDefault(t, s, item);
        if it.Some? then Some(SArray([it.value])) else None
    case _ => ScalarFromDefault(ty, s)
  }

  /** The keys from `k` on: the key of the conversion from the text, the others from their own defaults. */
  function KeysFromDefault(t: Table, s: string, id: nat, k: nat): Option<seq<Storage>>
    requires t.Valid() && id < |t.records| && t.records[id].auto.Some? && k <= |t.records[id].keys|
    decreases t.Rank().Of(TRecord(id)), 0, |t.records[id].keys| - k
  {
    var rec := t.records[id];
    assert t.RecordFits(id, t.Rank());
    if k == |rec.keys| then Some([])
    else
      assert rec.keys[k] in rec.keys;
      var text := if rec.auto == Some(k) then s else rec.keys[k].default.text;
      var first := FromDefault(t, text, rec.keys[k].keyType);
      var rest := KeysFromDefault(t, s, id, k + 1);
      if first.Some? && rest.Some? then Some([first.value] + rest.value) else None
  }
}
