/** Checking the data of a request against the columns of a table (opsrest/verify.py). */
module Verify {
  import opened Options

  type Name = string

  datatype Base = StringType | IntegerType | BooleanType

  /** JSON values; real numbers are not modelled. */
  datatype Value = Str(s: string) | Int(n: int) | Bool(b: bool) | List(items: seq<Value>) | Dict(entries: map<Name, Value>)

  /** A base type of section 3.2 of RFC 7047: bounds of a number, or of the length of a text, and an
      enumeration, which is empty when any value will do. */
  datatype BaseType = BaseType(base: Base, min: Option<int>, max: Option<int>, values: set<Value>)

  /** What the schema says of one key of a map column. */
  datatype KeyInfo = KeyInfo(value: BaseType, optional: bool)

  /** `key` is the type of the column's elements, or of the keys of a map. */
  datatype Kind = Single | ListOf | MapOf(value: BaseType)

  datatype Column = Column(
    key: BaseType, kind: Kind, nMin: nat, nMax: nat, keys: map<Name, KeyInfo>,
    common: bool, optional: bool, mutable: bool)

  predicate IsOf(v: Value, base: Base) {
    match base
    case StringType => v.Str?
    case IntegerType => v.Int?
    case BooleanType => v.Bool?
  }

  ghost predicate ValidBase(b: BaseType) {
    && (forall v :: v in b.values ==> IsOf(v, b.base))
    && (b.base.BooleanType? ==> b.min.None? && b.max.None?)
  }

  /** Only a list column has more than one element without being a map; only maps have keys, and those
      are arbitrary texts where the schema lists them (opslib/restparser.py:448-453). */
  ghost predicate ValidColumn(c: Column) {
    && ValidBase(c.key)
    && (c.kind.MapOf? ==> ValidBase(c.kind.value))
    && (forall k :: k in c.keys ==> ValidBase(c.keys[k].value))
    && (c.kind.ListOf? ==> c.nMax > 1)
    && (c.kind.Single? ==> c.nMax <= 1)
    && (c.keys != map[] ==> c.kind.MapOf? && c.key == BaseType(StringType, None, None, {}))
  }

  // ---------- what a column demands ----------

  predicate Between(n: int, b: BaseType) {
    && (b.min.Some? ==> b.min.value <= n)
    && (b.max.Some? ==> n <= b.max.value)
  }

  predicate InBounds(v: Value, b: BaseType) {
    match v
    case Str(s) => Between(|s|, b)
    case Int(n) => Between(n, b)
    case _ => true
  }

  predicate ScalarConforms(v: Value, b: BaseType) {
    IsOf(v, b.base) && (b.values != {} ==> v in b.values) && InBounds(v, b)
  }

  /** The value that a text stands for. */
  function Meaning(s: string, base: Base): Option<Value> {
    match base
    case StringType => Some(Str(s))
    case IntegerType => (match ParseInt(s) case None => None case Some(n) => Some(Int(n)))
    case BooleanType => if s == "true" then Some(Bool(true)) else if s == "false" then Some(Bool(false)) else None
  }

  predicate TextConforms(s: string, b: BaseType) {
    Meaning(s, b.base).Some? && ScalarConforms(Meaning(s, b.base).value, b)
  }

  /** A value under a key with a type of its own: a text has to stand for a value of that type. */
  predicate ConformsUnder(info: KeyInfo, v: Value) {
    if v.Str? then TextConforms(v.s, info.value) else ScalarConforms(v, info.value)
  }

  ghost predicate EntryConforms(c: Column, k: Name, v: Value)
    requires c.kind.MapOf?
  {
    && TextConforms(k, c.key)
    && ScalarConforms(v, c.kind.value)
    && (k in c.keys ==> ConformsUnder(c.keys[k], v))
  }

  ghost predicate KeysConform(c: Column, entries: map<Name, Value>) {
    && (c.keys != map[] && !c.common ==> entries.Keys <= c.keys.Keys)
    && (forall k :: k in c.keys && !c.keys[k].optional ==> k in entries)
  }

  /** The one value that a single-valued column is given, alone or in a list. */
  function Alone(v: Value): Value {
    if v.List? && |v.items| == 1 then v.items[0] else v
  }

  /** The constraint of the column: how many elements the value has, of what type, in what range and in
      which enumeration they and their keys are, which keys there may and which there must be. */
  ghost predicate Conforms(c: Column, v: Value) {
    match c.kind
    case Single => ScalarConforms(Alone(v), c.key)
    case ListOf =>
      v.List? && c.nMin <= |v.items| <= c.nMax && forall i :: 0 <= i < |v.items| ==> ScalarConforms(v.items[i], c.key)
    case MapOf(_) =>
      && v.Dict? && c.nMin <= |v.entries| <= c.nMax
      && KeysConform(c, v.entries)
      && forall k :: k in v.entries ==> EntryConforms(c, k, v.entries[k])
  }

  // ---------- ranges as the code derives and compares them ----------

  datatype Range = Range(min: int, max: int) | Unbounded

  const MAX_INT: int := 0x7fff_ffff_ffff_ffff

  /** A number without a minimum is taken to be at least zero; booleans have no range. */
  function RangeOf(b: BaseType): Range {
    if b.base.BooleanType? then Unbounded
    else Range(if b.min.Some? then b.min.value else 0, if b.max.Some? then b.max.value else MAX_INT)
  }

  /** A comparison with a bound that is missing says "too large", and so does one with a list or a map. */
  predicate WithinRange(v: Value, r: Range) {
    && r.Range?
    && match v
       case Str(s) => r.min <= |s| <= r.max
       case Int(n) => r.min <= n <= r.max
       case Bool(b) => r.min <= (if b then 1 else 0) <= r.max
       case _ => false
  }

  /** The number that a text stands for, where int() accepts it. */
  function ParseInt(s: string): Option<int> {
    if s != "" && s[0] == '-' then
      match ParseDigits(s[1..])
      case None => None
      case Some(n) => Some(-n)
    else ParseDigits(s)
  }

  function ParseDigits(s: string): Option<int> {
    if s == "" then None
    else if !('0' <= s[|s| - 1] <= '9') then None
    else if |s| == 1 then Some((s[0] - '0') as int)
    else match ParseDigits(s[..|s| - 1])
         case None => None
         case Some(n) => Some(10 * n + (s[|s| - 1] - '0') as int)
  }

  /** A number in decimal digits. */
  function Decimal(n: nat): (s: string)
    ensures s != "" && s[0] != '-'
  {
    if n < 10 then ["0123456789"[n]] else Decimal(n / 10) + ["0123456789"[n % 10]]
  }

  lemma DigitIs(c: char)
    ensures c in "0123456789" <==> '0' <= c <= '9'
    ensures '0' <= c <= '9' ==> "0123456789"[(c - '0') as int] == c
  {
  }

  /** Texts of decimal digits are read, and no others. */
  lemma {:induction false} DigitsExactly(s: string)
    ensures ParseDigits(s).Some? <==> s != "" && forall i :: 0 <= i < |s| ==> s[i] in "0123456789"
    decreases |s|
  {
    if s != "" {
      var n := |s| - 1;
      DigitIs(s[n]);
      assert s == s[..n] + [s[n]];
      if n > 0 {
        DigitsExactly(s[..n]);
      }
    }
  }

  lemma DigitValue(d: nat)
    requires d < 10
    ensures var c := "0123456789"[d]; '0' <= c <= '9' && (c - '0') as int == d
  {
  }

  lemma OneMoreDigit(s: string, m: nat, d: nat)
    requires d < 10 && if s == "" then m == 0 else ParseDigits(s) == Some(m)
    ensures ParseDigits(s + ["0123456789"[d]]) == Some(10 * m + d)
  {
    var c := "0123456789"[d];
    DigitValue(d);
    var t := s + [c];
    assert t[..|t| - 1] == s && t[|t| - 1] == c;
  }

  lemma {:induction false} DigitsReadBack(n: nat)
    ensures ParseDigits(Decimal(n)) == Some(n)
    decreases n
  {
    if n < 10 {
      OneMoreDigit("", 0, n);
      assert "" + ["0123456789"[n]] == ["0123456789"[n]];
    } else {
      DigitsReadBack(n / 10);
      OneMoreDigit(Decimal(n / 10), n / 10, n % 10);
    }
  }

  /** A number is read back from its decimal digits, with or without a minus sign. */
  lemma NumberReadsBack(n: nat)
    ensures ParseInt(Decimal(n)) == Some(n as int)
    ensures var minus := -(n as int); ParseInt("-" + Decimal(n)) == Some(minus)
  {
    DigitsReadBack(n);
    assert ("-" + Decimal(n))[1..] == Decimal(n);
  }

  /** What texts mean: themselves, truth values by name, and whatever int() reads. */
  lemma TextsMean(s: string, n: nat)
    ensures Meaning(s, StringType) == Some(Str(s))
    ensures Meaning("true", BooleanType) == Some(Bool(true)) && Meaning("false", BooleanType) == Some(Bool(false))
    ensures s != "true" && s != "false" ==> Meaning(s, BooleanType) == None
    ensures Meaning(Decimal(n), IntegerType) == Some(Int(n)) && Meaning("-" + Decimal(n), IntegerType) == Some(Int(-(n as int)))
  {
    NumberReadsBack(n);
  }

  /** A text as a value of the given type; booleans stay texts. */
  function Converted(s: string, base: Base): Option<Value> {
    match base
    case StringType => Some(Str(s))
    case IntegerType => (match ParseInt(s) case None => None case Some(n) => Some(Int(n)))
    case BooleanType => if s == "true" || s == "false" then Some(Str(s)) else None
  }

  // ---------- what is accepted ----------

  /** A value under a key for which the schema gives a type: the value itself, or the text of one. */
  function ValueFor(v: Value, info: KeyInfo): Option<Value> {
    if v.Str? then Converted(v.s, info.value.base) else Some(v)
  }

  predicate EntryTyped(c: Column, k: Name, v: Value)
    requires c.kind.MapOf?
  {
    && (c.keys != map[] && !c.common ==> k in c.keys)
    && IsOf(v, c.kind.value.base)
    && (v.Str? && k in c.keys ==> ValueFor(v, c.keys[k]).Some?)
  }

  /** Elements are looked at only where there can be more than one. */
  predicate TypeFits(c: Column, v: Value) {
    match c.kind
    case Single => IsOf(Alone(v), c.key.base)
    case ListOf => v.List? && forall i :: 0 <= i < |v.items| ==> IsOf(v.items[i], c.key.base)
    case MapOf(_) => v.Dict? && (c.nMax > 1 ==> forall k :: k in v.entries ==> EntryTyped(c, k, v.entries[k]))
  }

  /** Of a list every element is looked up. */
  predicate InEnum(v: Value, values: set<Value>) {
    if v.List? then forall i :: 0 <= i < |v.items| ==> v.items[i] in values else v in values
  }

  predicate KeyListed(c: Column, entries: map<Name, Value>, k: Name)
    requires k in c.keys
  {
    k in entries && c.keys[k].value.values != {} ==>
      ValueFor(entries[k], c.keys[k]).Some? && InEnum(ValueFor(entries[k], c.keys[k]).value, c.keys[k].value.values)
  }

  /** Looking up a map in an enumeration raises an exception. */
  predicate ValuesFit(c: Column, v: Value) {
    if c.keys != map[] then
      && v.Dict?
      && (c.common || v.entries.Keys <= c.keys.Keys)
      && (forall k :: k in c.keys && k !in v.entries ==> c.keys[k].optional)
      && (forall k :: k in c.keys ==> KeyListed(c, v.entries, k))
    else if c.key.values == {} then true
    else
      match c.kind
      case Single => InEnum(v, c.key.values)
      case ListOf => v.List? && InEnum(v, c.key.values)
      case MapOf(_) => false
  }

  predicate EntryInRange(c: Column, k: Name, v: Value)
    requires c.kind.MapOf?
  {
    && WithinRange(Str(k), RangeOf(c.key))
    && (v.Bool? || (if k in c.keys then
                      || c.keys[k].value.base.BooleanType?
                      || (ValueFor(v, c.keys[k]).Some? && WithinRange(ValueFor(v, c.keys[k]).value, RangeOf(c.keys[k].value)))
                    else WithinRange(v, RangeOf(c.kind.value))))
  }

  predicate RangeFits(c: Column, v: Value) {
    match c.kind
    case Single => v.Bool? || WithinRange(Alone(v), RangeOf(c.key))
    case ListOf =>
      v.List? && c.nMin <= |v.items| <= c.nMax && forall i :: 0 <= i < |v.items| ==> WithinRange(v.items[i], RangeOf(c.key))
    case MapOf(_) =>
      v.Dict? && c.nMin <= |v.entries| <= c.nMax && forall k :: k in v.entries ==> EntryInRange(c, k, v.entries[k])
  }

  predicate Accepted(c: Column, v: Value) {
    TypeFits(c, v) && ValuesFit(c, v) && RangeFits(c, v)
  }

  // ---------- what is let through, and what is turned away ----------

  /** What the checks miss in an entry of a map: integer keys are compared by the length of their text;
      nobody looks at the enumeration of the values, nor at their bounds and type where the key has a
      type of its own, nor at any type in a map of at most one entry. */
  ghost predicate Overlooked(c: Column, k: Name, v: Value)
    requires c.kind.MapOf?
  {
    || (c.key.base.IntegerType? && !TextConforms(k, c.key))
    || (c.kind.value.values != {} && v !in c.kind.value.values)
    || (k in c.keys && !InBounds(v, c.kind.value))
    || (k in c.keys && !v.Str? && !IsOf(v, c.keys[k].value.base))
    || (c.nMax <= 1 && !IsOf(v, c.kind.value.base))
    || (c.nMax <= 1 && k in c.keys && v.Str? && Meaning(v.s, c.keys[k].value.base).None?)
  }

  ghost predicate Overlooks(c: Column, v: Value) {
    c.kind.MapOf? && v.Dict? && exists k :: k in v.entries && Overlooked(c, k, v.entries[k])
  }

  /** Outside of the range that is assumed where the schema gives no bound; truth values are outside of any. */
  predicate OutOfDefault(v: Value, b: BaseType) {
    match v
    case Str(s) => b.max.None? && |s| > MAX_INT
    case Int(n) => (b.min.None? && n < 0) || (b.max.None? && n > MAX_INT)
    case _ => true
  }

  /** A good entry that is turned away: for the length of its key's text, for its value, or for a truth
      value given as a text where truth values are enumerated. */
  ghost predicate EntryRefused(c: Column, k: Name, v: Value)
    requires c.kind.MapOf?
  {
    || (c.key.base.StringType? && OutOfDefault(Str(k), c.key))
    || (c.key.base.IntegerType? && !WithinRange(Str(k), RangeOf(c.key)))
    || c.key.base.BooleanType?
    || (k !in c.keys && !v.Bool? && OutOfDefault(v, c.kind.value))
    || (k in c.keys && !v.Bool? && !c.keys[k].value.base.BooleanType?
        && ValueFor(v, c.keys[k]).Some? && OutOfDefault(ValueFor(v, c.keys[k]).value, c.keys[k].value))
    || (k in c.keys && v.Str? && c.keys[k].value.base.BooleanType? && c.keys[k].value.values != {})
  }

  /** A good value that is turned away; maps with enumerated keys always are. */
  ghost predicate Refused(c: Column, v: Value) {
    match c.kind
    case Single => !v.Bool? && OutOfDefault(Alone(v), c.key)
    case ListOf => v.List? && exists i :: 0 <= i < |v.items| && OutOfDefault(v.items[i], c.key)
    case MapOf(_) => c.key.values != {} || (v.Dict? && exists k :: k in v.entries && EntryRefused(c, k, v.entries[k]))
  }

  lemma WithinConforms(v: Value, b: BaseType)
    requires IsOf(v, b.base) && !v.Bool?
    ensures WithinRange(v, RangeOf(b)) ==> InBounds(v, b)
    ensures InBounds(v, b) ==> (WithinRange(v, RangeOf(b)) <==> !OutOfDefault(v, b))
  {
  }

  lemma TypedIsMeant(v: Value, info: KeyInfo)
    requires v.Str? && ValidBase(info.value)
    ensures ValueFor(v, info).Some? <==> Meaning(v.s, info.value.base).Some?
    ensures !info.value.base.BooleanType? ==> ValueFor(v, info) == Meaning(v.s, info.value.base)
    ensures info.value.base.BooleanType? && ValueFor(v, info).Some? ==> ValueFor(v, info).value !in info.value.values
    ensures Meaning(v.s, info.value.base).Some? ==> IsOf(Meaning(v.s, info.value.base).value, info.value.base)
  {
  }

  /** What of an entry's own key is checked. */
  lemma KnownKey(c: Column, entries: map<Name, Value>, k: Name)
    requires ValidColumn(c) && c.kind.MapOf? && k in c.keys && k in entries
    requires KeyListed(c, entries, k) && EntryInRange(c, k, entries[k]) && (c.nMax > 1 ==> EntryTyped(c, k, entries[k]))
    ensures !Overlooked(c, k, entries[k]) ==> ConformsUnder(c.keys[k], entries[k])
  {
    var v, info := entries[k], c.keys[k];
    if !Overlooked(c, k, v) {
      if v.Str? {
        TypedIsMeant(v, info);
        if !info.value.base.BooleanType? {
          WithinConforms(Meaning(v.s, info.value.base).value, info.value);
        }
      } else if !v.Bool? && IsOf(v, info.value.base) {
        WithinConforms(v, info.value);
      }
    }
  }

  lemma EntryAccepted(c: Column, v: Value, k: Name)
    requires ValidColumn(c) && c.kind.MapOf? && Accepted(c, v) && k in v.entries
    ensures EntryConforms(c, k, v.entries[k]) <==> !Overlooked(c, k, v.entries[k])
  {
    var x := v.entries[k];
    assert EntryInRange(c, k, x);
    assert c.nMax > 1 ==> EntryTyped(c, k, x);
    if k in c.keys {
      KnownKey(c, v.entries, k);
      if x.Str? {
        TypedIsMeant(x, c.keys[k]);
      }
    } else if IsOf(x, c.kind.value.base) && !x.Bool? {
      WithinConforms(x, c.kind.value);
    }
    if c.key.base.StringType? {
      WithinConforms(Str(k), c.key);
    }
  }

  /** What is accepted conforms, unless it is a map that has an entry of which something is overlooked. */
  lemma AcceptedConforms(c: Column, v: Value)
    requires ValidColumn(c) && Accepted(c, v)
    ensures Conforms(c, v) <==> !Overlooks(c, v)
  {
    match c.kind
    case Single =>
      if !Alone(v).Bool? {
        WithinConforms(Alone(v), c.key);
      }
    case ListOf =>
      forall i | 0 <= i < |v.items|
        ensures ScalarConforms(v.items[i], c.key)
      {
        if !v.items[i].Bool? {
          WithinConforms(v.items[i], c.key);
        }
      }
    case MapOf(_) =>
      forall k | k in v.entries
        ensures EntryConforms(c, k, v.entries[k]) <==> !Overlooked(c, k, v.entries[k])
      {
        EntryAccepted(c, v, k);
      }
  }

  lemma EntryGood(c: Column, entries: map<Name, Value>, k: Name)
    requires ValidColumn(c) && c.kind.MapOf? && k in entries && EntryConforms(c, k, entries[k]) && KeysConform(c, entries)
    ensures EntryTyped(c, k, entries[k])
    ensures EntryRefused(c, k, entries[k]) <==> !EntryInRange(c, k, entries[k]) || (k in c.keys && !KeyListed(c, entries, k))
  {
    var v := entries[k];
    if c.key.base.StringType? {
      WithinConforms(Str(k), c.key);
    }
    if k in c.keys {
      var info := c.keys[k];
      if v.Str? {
        TypedIsMeant(v, info);
        if !info.value.base.BooleanType? {
          WithinConforms(Meaning(v.s, info.value.base).value, info.value);
        }
      } else if !v.Bool? {
        WithinConforms(v, info.value);
      }
    } else if !v.Bool? {
      WithinConforms(v, c.kind.value);
    }
  }

  /** What conforms is accepted, unless it is refused for one of these reasons. */
  lemma ConformingAccepted(c: Column, v: Value)
    requires ValidColumn(c) && Conforms(c, v)
    ensures Accepted(c, v) <==> !Refused(c, v)
  {
    match c.kind
    case Single =>
      if !Alone(v).Bool? {
        WithinConforms(Alone(v), c.key);
      }
    case ListOf =>
      forall i | 0 <= i < |v.items|
        ensures WithinRange(v.items[i], RangeOf(c.key)) <==> !OutOfDefault(v.items[i], c.key)
      {
        if !v.items[i].Bool? {
          WithinConforms(v.items[i], c.key);
        }
      }
    case MapOf(_) =>
      forall k | k in v.entries
        ensures EntryTyped(c, k, v.entries[k])
        ensures EntryRefused(c, k, v.entries[k])
                <==> !EntryInRange(c, k, v.entries[k]) || (k in c.keys && !KeyListed(c, v.entries, k))
      {
        EntryGood(c, v.entries, k);
      }
  }

  function NumberMap(nMax: nat, key: BaseType, value: BaseType): Column {
    Column(key, MapOf(value), 0, nMax, map[], false, true, true)
  }

  const ANY_TEXT: BaseType := BaseType(StringType, None, None, {})
  const DIGIT: BaseType := BaseType(IntegerType, Some(1), Some(9), {})

  /** Such values: keys from 1 to 9 that are neither, */
  lemma KeysGoUnchecked()
    ensures var c := NumberMap(4, DIGIT, ANY_TEXT);
            var v := Dict(map["12345" := Str("x"), "abc" := Str("y")]);
            ValidColumn(c) && Accepted(c, v) && !Conforms(c, v)
  {
    var c := NumberMap(4, DIGIT, ANY_TEXT);
    var entries: map<Name, Value> := map["12345" := Str("x"), "abc" := Str("y")];
    assert entries.Keys == {"12345", "abc"} && |entries| == |{"12345", "abc"}|;
    assert ParseDigits("abc") == None;
    assert "abc" in entries && !EntryConforms(c, "abc", entries["abc"]);
    assert Accepted(c, Dict(entries));
  }

  /** a truth value where there should be a number, */
  lemma TypeGoesUnchecked(k: Name)
    requires |k| <= 64
    ensures var c := NumberMap(1, ANY_TEXT, DIGIT);
            var v := Dict(map[k := Bool(true)]);
            ValidColumn(c) && Accepted(c, v) && !Conforms(c, v)
  {
    var entries: map<Name, Value> := map[k := Bool(true)];
    assert k in entries && entries[k] == Bool(true) && |entries| == 1;
  }

  /** a number outside of the enumeration of the values. */
  lemma EnumerationGoesUnchecked(k: Name)
    requires |k| <= 64
    ensures var c := NumberMap(4, ANY_TEXT, DIGIT.(values := {Int(1), Int(2)}));
            var v := Dict(map[k := Int(7)]);
            ValidColumn(c) && Accepted(c, v) && !Conforms(c, v)
  {
    var entries: map<Name, Value> := map[k := Int(7)];
    assert k in entries && entries[k] == Int(7) && |entries| == 1;
  }

  /** And one that is turned away: no list of truth values is accepted, unless it is empty. */
  lemma TruthValuesAreRefused(c: Column, v: Value)
    requires ValidColumn(c) && c.kind.ListOf? && c.key.base.BooleanType? && Conforms(c, v)
    ensures Accepted(c, v) <==> v.items == []
  {
    ConformingAccepted(c, v);
    if v.items != [] {
      assert OutOfDefault(v.items[0], c.key);
    }
  }

  // ---------- the checks ----------

  method VerifyContainerValuesType(c: Column, v: Value) returns (ok: bool)
    requires ValidColumn(c) && c.nMax > 1 && (c.kind.ListOf? ==> v.List?) && (c.kind.MapOf? ==> v.Dict?)
    ensures ok <==> TypeFits(c, v)
  {
    if c.kind.ListOf? {
      var i := 0;
      while i < |v.items|
        invariant 0 <= i <= |v.items|
        invariant forall k :: 0 <= k < i ==> IsOf(v.items[k], c.key.base)
      {
        if !IsOf(v.items[i], c.key.base) {
          return false;
        }
        i := i + 1;
      }
    } else {
      var todo := v.entries.Keys;
      while todo != {}
        invariant todo <= v.entries.Keys
        invariant forall k :: k in v.entries.Keys - todo ==> EntryTyped(c, k, v.entries[k])
        decreases todo
      {
        var k :| k in todo;
        todo := todo - {k};
        if !c.common && c.keys != map[] && k !in c.keys {
          return false;
        }
        if !IsOf(v.entries[k], c.kind.value.base) {
          return false;
        }
        if v.entries[k].Str? && k in c.keys && Converted(v.entries[k].s, c.keys[k].value.base).None? {
          return false;
        }
      }
    }
    ok := true;
  }

  method IsValueInEnum(v: Value, values: set<Value>) returns (ok: bool)
    ensures ok <==> InEnum(v, values)
  {
    ok := if v.List? then (set x | x in v.items) <= values else v in values;
  }

  method VerifyValidAttributeValues(c: Column, v: Value) returns (ok: bool)
    requires ValidColumn(c) && (c.kind.ListOf? ==> v.List?) && (c.kind.MapOf? ==> v.Dict?)
    ensures ok <==> ValuesFit(c, v)
  {
    if c.keys != map[] {
      if (!c.common && !(v.entries.Keys <= c.keys.Keys)) || exists k :: k in c.keys && k !in v.entries && !c.keys[k].optional {
        return false;
      }
      var todo := c.keys.Keys;
      while todo != {}
        invariant todo <= c.keys.Keys
        invariant forall k :: k in c.keys.Keys - todo ==> KeyListed(c, v.entries, k)
        decreases todo
      {
        var k :| k in todo;
        todo := todo - {k};
        if k in v.entries && c.keys[k].value.values != {} {
          var value := ValueFor(v.entries[k], c.keys[k]);
          if value.None? {
            return false;
          }
          var listed := IsValueInEnum(value.value, c.keys[k].value.values);
          if !listed {
            return false;
          }
        }
      }
      ok := true;
    } else if c.key.values != {} {
      match c.kind
      case MapOf(_) => ok := false;
      case _ => ok := IsValueInEnum(v, c.key.values);
    } else {
      ok := true;
    }
  }

  /** The type of one value, of its elements, and its enumeration. */
  method VerifyAttributeType(c: Column, v: Value) returns (ok: bool)
    requires ValidColumn(c)
    ensures ok <==> TypeFits(c, v) && ValuesFit(c, v)
  {
    if (c.kind.ListOf? && !v.List?) || (c.kind.MapOf? && !v.Dict?) || (c.kind.Single? && !IsOf(Alone(v), c.key.base)) {
      return false;
    }
    if c.nMax > 1 {
      ok := VerifyContainerValuesType(c, v);
      if !ok {
        return;
      }
    }
    ok := VerifyValidAttributeValues(c, v);
  }

  method VerifyAttributeRange(c: Column, v: Value) returns (ok: bool)
    requires ValidColumn(c) && TypeFits(c, v)
    ensures ok <==> RangeFits(c, v)
  {
    match c.kind
    case Single =>
      ok := v.Bool? || WithinRange(Alone(v), RangeOf(c.key));
    case ListOf =>
      if !(c.nMin <= |v.items| <= c.nMax) {
        return false;
      }
      var i := 0;
      while i < |v.items|
        invariant 0 <= i <= |v.items|
        invariant forall k :: 0 <= k < i ==> WithinRange(v.items[k], RangeOf(c.key))
      {
        if !WithinRange(v.items[i], RangeOf(c.key)) {
          return false;
        }
        i := i + 1;
      }
      ok := true;
    case MapOf(value) =>
      if !(c.nMin <= |v.entries| <= c.nMax) {
        return false;
      }
      var todo := v.entries.Keys;
      while todo != {}
        invariant todo <= v.entries.Keys
        invariant forall k :: k in v.entries.Keys - todo ==> EntryInRange(c, k, v.entries[k])
        decreases todo
      {
        var k :| k in todo;
        todo := todo - {k};
        if !EntryInRange(c, k, v.entries[k]) {
          return false;
        }
      }
      ok := true;
  }

  /** Type, enumeration and range of one value: what passes conforms unless something is overlooked, and
      what conforms passes unless it is refused. */
  method VerifyAttribute(c: Column, v: Value) returns (ok: bool)
    requires ValidColumn(c)
    ensures ok <==> Accepted(c, v)
    ensures ok ==> (Conforms(c, v) <==> !Overlooks(c, v))
    ensures Conforms(c, v) ==> (ok <==> !Refused(c, v))
  {
    ok := VerifyAttributeType(c, v);
    if ok {
      ok := VerifyAttributeRange(c, v);
    }
    if ok {
      AcceptedConforms(c, v);
    }
    if Conforms(c, v) {
      ConformingAccepted(c, v);
    }
  }

  // ---------- whole requests ----------

  datatype Request = Create | Update(row: map<Name, Value>) | Patch
  type Columns = map<Name, Column>

  predicate SameAs(row: map<Name, Value>, name: Name, c: Column, v: Value) {
    name in row && row[name] == if c.optional then List([v]) else v
  }

  /** A column of the request is in order. */
  predicate ColumnPasses(columns: Columns, data: map<Name, Value>, request: Request, name: Name)
    requires name in columns
  {
    var c := columns[name];
    if name in data then
      && Accepted(c, data[name])
      && (request.Update? && !c.mutable ==> SameAs(request.row, name, c, data[name]))
    else
      c.optional || (!request.Create? && !c.mutable)
  }

  predicate Passes(columns: Columns, references: set<Name>, data: map<Name, Value>, request: Request) {
    && data.Keys <= columns.Keys + references
    && (forall name :: name in columns ==> ColumnPasses(columns, data, request, name))
  }

  /** The data that is written: what was sent for configuration columns, without immutable ones unless
      the row is new. */
  function Verified(columns: Columns, data: map<Name, Value>, request: Request): map<Name, Value> {
    map name | name in data && name in columns && (request.Create? || columns[name].mutable) :: data[name]
  }

  /** One column of a request. */
  method VerifyColumn(columns: Columns, data: map<Name, Value>, request: Request, name: Name) returns (ok: bool)
    requires name in columns && ValidColumn(columns[name])
    ensures ok <==> ColumnPasses(columns, data, request, name)
  {
    var c := columns[name];
    if name !in data {
      return c.optional || (!request.Create? && !c.mutable);
    }
    ok := VerifyAttribute(c, data[name]);
    if ok && request.Update? && !c.mutable {
      ok := SameAs(request.row, name, c, data[name]);
    }
  }

  predicate IsTaken(columns: Columns, data: map<Name, Value>, request: Request, name: Name) {
    name in data && name in columns && (request.Create? || columns[name].mutable)
  }

  lemma VerifiedIs(columns: Columns, data: map<Name, Value>, request: Request, all: map<Name, Value>)
    requires forall name :: name in all <==> IsTaken(columns, data, request, name)
    requires forall name :: name in all ==> name in data && all[name] == data[name]
    ensures all == Verified(columns, data, request)
  {
    assert forall name {:trigger name in Verified(columns, data, request)} ::
        name in Verified(columns, data, request) <==> IsTaken(columns, data, request, name);
  }

  method VerifyConfigData(columns: Columns, references: set<Name>, data: map<Name, Value>, request: Request)
    returns (verified: Option<map<Name, Value>>)
    requires forall name :: name in columns ==> ValidColumn(columns[name])
    ensures verified.Some? <==> Passes(columns, references, data, request)
    ensures verified.Some? ==> verified.value == Verified(columns, data, request)
    ensures verified.Some? <==>
              && (forall name :: name in data ==> name in columns || name in references)
              && (forall name :: name in columns && name in data ==> Accepted(columns[name], data[name]))
              && (forall name :: name in columns && name !in data ==>
                    columns[name].optional || (!columns[name].mutable && request != Create))
              && (match request
                  case Update(row) => forall name :: name in columns && name in data && !columns[name].mutable ==>
                    name in row && row[name] == if columns[name].optional then List([data[name]]) else data[name]
                  case _ => true)
    ensures verified.Some? ==> forall name ::
              && (name in verified.value <==> name in data && name in columns && (request == Create || columns[name].mutable))
              && (name in verified.value ==> verified.value[name] == data[name])
  {
    if !(data.Keys <= columns.Keys + references) {
      return None;
    }
    var all: map<Name, Value> := map[];
    var todo := columns.Keys;
    while todo != {}
      invariant todo <= columns.Keys
      invariant forall name :: name in columns.Keys - todo ==> ColumnPasses(columns, data, request, name)
      invariant forall name :: name in all <==> name !in todo && IsTaken(columns, data, request, name)
      invariant forall name :: name in all ==> name in data && all[name] == data[name]
      decreases todo
    {
      var name :| name in todo;
      todo := todo - {name};
      var ok := VerifyColumn(columns, data, request, name);
      if !ok {
        return None;
      }
      if IsTaken(columns, data, request, name) {
        all := all[name := data[name]];
      }
    }
    VerifiedIs(columns, data, request, all);
    verified := Some(all);
    assert forall name {:trigger ColumnPasses(columns, data, request, name)} :: name in columns ==> ColumnPasses(columns, data, request, name);
  }

  function Written(row: map<Name, Value>, data: map<Name, Value>, columns: set<Name>): map<Name, Value> {
    row + map name | name in data && name in columns :: data[name]
  }

  /** Data that passes conforms, lacks nothing mandatory, and on existing rows leaves immutable columns alone. */
  lemma VerifiedIsSafe(columns: Columns, references: set<Name>, data: map<Name, Value>, request: Request, row: map<Name, Value>, name: Name)
    requires Passes(columns, references, data, request) && name in columns && ValidColumn(columns[name])
    ensures name in Verified(columns, data, request) && !Overlooks(columns[name], data[name]) ==>
              Conforms(columns[name], Verified(columns, data, request)[name])
    ensures request.Create? && !columns[name].optional ==> name in Verified(columns, data, request)
    ensures !request.Create? && !columns[name].optional && columns[name].mutable ==> name in Verified(columns, data, request)
    ensures name in Verified(columns, data, request) ==>
              var after := Written(row, Verified(columns, data, request), columns.Keys); name in after && after[name] == data[name]
    ensures !request.Create? && !columns[name].mutable ==>
              var after := Written(row, Verified(columns, data, request), columns.Keys);
              (name in after <==> name in row) && (name in row ==> after[name] == row[name])
  {
    assert ColumnPasses(columns, data, request, name);
    if name in data {
      AcceptedConforms(columns[name], data[name]);
    }
  }
}
