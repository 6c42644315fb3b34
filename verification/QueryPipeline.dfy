/** Filtering, sorting and paging of results (opsrest/utils/getutils.py). */
module QueryPipeline {
  import opened Options

  type Name = string

  datatype Atom = Number(n: int) | Text(text: string)
  datatype Cell = One(atom: Atom) | Many(items: seq<Atom>)

  /** A result: its columns by category, in the order in which categories are searched. */
  type Item = seq<map<Name, Cell>>

  function Lookup(item: Item, key: Name): Option<Cell> {
    if item == [] then None
    else if key in item[0] then Some(item[0][key])
    else Lookup(item[1..], key)
  }

  /** The first category that has the column. */
  ghost predicate FoundAt(item: Item, key: Name, i: int) {
    0 <= i < |item| && key in item[i] && forall k :: 0 <= k < i ==> key !in item[k]
  }

  /** A column is looked for in one category after the other. */
  lemma {:induction false} LookupExactly(item: Item, key: Name, c: Cell)
    ensures Lookup(item, key) == Some(c) <==> exists i :: FoundAt(item, key, i) && item[i][key] == c
    decreases |item|
  {
    if item != [] && key !in item[0] {
      LookupExactly(item[1..], key, c);
      if i :| FoundAt(item[1..], key, i) && item[1..][i][key] == c {
        assert FoundAt(item, key, i + 1);
      }
      if i :| FoundAt(item, key, i) && item[i][key] == c {
        assert FoundAt(item[1..], key, i - 1);
      }
    } else if item != [] {
      assert FoundAt(item, key, 0) && forall i :: FoundAt(item, key, i) ==> i == 0;
    }
  }

  // ---------- filtering ----------

  type Filters = map<Name, set<Atom>>

  /** What counts as a value: not zero, not the empty text, not an empty list. */
  predicate Truthy(c: Cell) {
    match c
    case One(Number(n)) => n != 0
    case One(Text(t)) => t != ""
    case Many(items) => items != []
  }

  function AtomsOf(c: Cell): set<Atom> {
    match c
    case One(a) => {a}
    case Many(items) => set i | 0 <= i < |items| :: items[i]
  }

  predicate PassesOne(filters: Filters, item: Item, key: Name)
    requires key in filters
  {
    var value := Lookup(item, key);
    value.Some? && Truthy(value.value) && filters[key] * AtomsOf(value.value) != {}
  }

  predicate Passes(filters: Filters, item: Item) {
    forall key :: key in filters ==> PassesOne(filters, item, key)
  }

  function Filtered(filters: Filters, data: seq<Item>): seq<Item> {
    if data == [] then []
    else
      var n := |data| - 1;
      Filtered(filters, data[..n]) + if Passes(filters, data[n]) then [data[n]] else []
  }

  /** The items that pass, in order. */
  lemma {:induction false} FilteredExactly(filters: Filters, data: seq<Item>) returns (at: seq<nat>)
    ensures |at| == |Filtered(filters, data)| && forall i :: 0 <= i < |at| ==> at[i] < |data| && data[at[i]] == Filtered(filters, data)[i]
    ensures forall i, k :: 0 <= i < k < |at| ==> at[i] < at[k]
    ensures forall m: nat :: m < |data| ==> (m in at <==> Passes(filters, data[m]))
  {
    at := [];
    if data != [] {
      var n := |data| - 1;
      at := FilteredExactly(filters, data[..n]);
      if Passes(filters, data[n]) {
        at := at + [n];
      }
    }
  }

  /** Checks one element against all filters. */
  method ElementPasses(item: Item, filters: Filters) returns (valid: bool)
    ensures valid <==> Passes(filters, item)
  {
    valid := true;
    var todo := filters.Keys;
    while todo != {}
      invariant todo <= filters.Keys
      invariant valid <==> forall key :: key in filters.Keys - todo ==> PassesOne(filters, item, key)
      decreases todo
    {
      var key :| key in todo;
      var value := Lookup(item, key);
      if value.Some? && Truthy(value.value) {
        NoCommon(filters[key], AtomsOf(value.value));
        if filters[key] - AtomsOf(value.value) == filters[key] {
          valid := false;
        }
      } else {
        valid := false;
      }
      assert filters.Keys - (todo - {key}) == filters.Keys - todo + {key};
      todo := todo - {key};
    }
  }

  /** A value that is wanted: not zero, not the empty text, and it or one of its elements is on the list. */
  ghost predicate Wanted(values: set<Atom>, c: Cell) {
    match c
    case One(Number(n)) => n != 0 && Number(n) in values
    case One(Text(t)) => t != "" && Text(t) in values
    case Many(items) => exists i :: 0 <= i < |items| && items[i] in values
  }

  /** An item passes when for every filter its first category with that column holds a wanted value. */
  lemma PassesExactly(filters: Filters, item: Item)
    ensures Passes(filters, item) <==>
            forall key :: key in filters ==> exists i :: FoundAt(item, key, i) && Wanted(filters[key], item[i][key])
  {
    forall key | key in filters
      ensures PassesOne(filters, item, key) <==> exists i :: FoundAt(item, key, i) && Wanted(filters[key], item[i][key])
    {
      PassesOneExactly(filters, item, key);
    }
  }

  lemma PassesOneExactly(filters: Filters, item: Item, key: Name)
    requires key in filters
    ensures PassesOne(filters, item, key) <==> exists i :: FoundAt(item, key, i) && Wanted(filters[key], item[i][key])
  {
    var value := Lookup(item, key);
    if value.Some? {
      LookupExactly(item, key, value.value);
      WantedIs(filters[key], value.value);
    }
    if i :| FoundAt(item, key, i) && Wanted(filters[key], item[i][key]) {
      LookupExactly(item, key, item[i][key]);
      WantedIs(filters[key], item[i][key]);
    }
  }

  lemma WantedIs(values: set<Atom>, c: Cell)
    ensures Wanted(values, c) <==> Truthy(c) && values * AtomsOf(c) != {}
  {
    match c
    case One(a) =>
      assert a in values ==> a in values * {a};
    case Many(items) =>
      if i :| 0 <= i < |items| && items[i] in values {
        assert items[i] in values * AtomsOf(c);
      }
      if x :| x in values * AtomsOf(c) {
        var i :| 0 <= i < |items| && items[i] == x;
      }
  }

  method FilterGetResults(data: seq<Item>, filters: Filters) returns (filtered: seq<Item>)
    ensures filtered == Filtered(filters, data)
  {
    filtered := [];
    var i := 0;
    while i < |data|
      invariant 0 <= i <= |data|
      invariant filtered == Filtered(filters, data[..i])
    {
      assert data[..i + 1][..i] == data[..i];
      var valid := ElementPasses(data[i], filters);
      if valid {
        filtered := filtered + [data[i]];
      }
      i := i + 1;
    }
    assert data[..|data|] == data;
  }

  lemma NoCommon(a: set<Atom>, b: set<Atom>)
    ensures a - b == a <==> a * b == {}
  {
    if a - b == a {
      assert forall x :: x in a ==> x in a - b;
    }
    if a * b == {} {
      assert forall x :: x in a ==> x !in a * b;
    }
  }

  // ---------- sorting ----------

  function Lower(s: string): string {
    if s == "" then ""
    else (if 'A' <= s[0] <= 'Z' then [s[0] - 'A' + 'a'] else [s[0]]) + Lower(s[1..])
  }

  /** The value that a column contributes to the sort key; a missing one counts as the empty text. */
  function SortValue(item: Item, column: Name): Cell {
    match Lookup(item, column)
    case None => One(Text(""))
    case Some(One(Text(t))) => One(Text(Lower(t)))
    case Some(c) => c
  }

  function SortKey(item: Item, columns: seq<Name>): (key: seq<Cell>)
    ensures |key| == |columns|
  {
    seq(|columns|, i requires 0 <= i < |columns| => SortValue(item, columns[i]))
  }

  predicate TextLeq(a: string, b: string) {
    a == "" || (b != "" && (a[0] < b[0] || (a[0] == b[0] && TextLeq(a[1..], b[1..]))))
  }

  /** Numbers come before texts. */
  predicate AtomLeq(a: Atom, b: Atom) {
    match (a, b)
    case (Number(m), Number(n)) => m <= n
    case (Text(s), Text(t)) => TextLeq(s, t)
    case (Number(_), Text(_)) => true
    case (Text(_), Number(_)) => false
  }

  predicate ItemsLeq(a: seq<Atom>, b: seq<Atom>) {
    a == [] || (b != [] && (if a[0] == b[0] then ItemsLeq(a[1..], b[1..]) else AtomLeq(a[0], b[0])))
  }

  /** Values of different types are ordered by type: numbers, lists, texts. */
  predicate CellLeq(a: Cell, b: Cell) {
    match (a, b)
    case (One(x), One(y)) => AtomLeq(x, y)
    case (Many(x), Many(y)) => ItemsLeq(x, y)
    case (One(x), Many(_)) => x.Number?
    case (Many(_), One(y)) => y.Text?
  }

  predicate KeyLeq(a: seq<Cell>, b: seq<Cell>) {
    a == [] || (b != [] && (if a[0] == b[0] then KeyLeq(a[1..], b[1..]) else CellLeq(a[0], b[0])))
  }

  lemma {:induction false} TextOrder(a: string, b: string, c: string)
    ensures TextLeq(a, b) || TextLeq(b, a)
    ensures TextLeq(a, b) && TextLeq(b, a) ==> a == b
    ensures TextLeq(a, b) && TextLeq(b, c) ==> TextLeq(a, c)
  {
    if a != "" && b != "" {
      TextOrder(a[1..], b[1..], if c != "" then c[1..] else "");
      assert a == [a[0]] + a[1..] && b == [b[0]] + b[1..];
    }
  }

  lemma AtomOrder(a: Atom, b: Atom, c: Atom)
    ensures AtomLeq(a, b) || AtomLeq(b, a)
    ensures AtomLeq(a, b) && AtomLeq(b, a) ==> a == b
    ensures AtomLeq(a, b) && AtomLeq(b, c) ==> AtomLeq(a, c)
  {
    if a.Text? && b.Text? {
      TextOrder(a.text, b.text, if c.Text? then c.text else "");
    }
  }

  lemma {:induction false} ItemsOrder(a: seq<Atom>, b: seq<Atom>, c: seq<Atom>)
    ensures ItemsLeq(a, b) || ItemsLeq(b, a)
    ensures ItemsLeq(a, b) && ItemsLeq(b, a) ==> a == b
    ensures ItemsLeq(a, b) && ItemsLeq(b, c) ==> ItemsLeq(a, c)
  {
    if a != [] && b != [] {
      ItemsOrder(a[1..], b[1..], if c != [] then c[1..] else []);
      AtomOrder(a[0], b[0], if c != [] then c[0] else a[0]);
      if c != [] {
        AtomOrder(b[0], c[0], a[0]);
      }
      assert a == [a[0]] + a[1..] && b == [b[0]] + b[1..];
    }
  }

  lemma CellOrder(a: Cell, b: Cell, c: Cell)
    ensures CellLeq(a, b) || CellLeq(b, a)
    ensures CellLeq(a, b) && CellLeq(b, a) ==> a == b
    ensures CellLeq(a, b) && CellLeq(b, c) ==> CellLeq(a, c)
  {
    if a.One? && b.One? {
      AtomOrder(a.atom, b.atom, if c.One? then c.atom else a.atom);
    } else if a.Many? && b.Many? {
      ItemsOrder(a.items, b.items, if c.Many? then c.items else []);
    }
    if a.One? && c.One? {
      AtomOrder(a.atom, c.atom, a.atom);
    }
  }

  /** Sort keys are totally ordered. */
  lemma {:induction false} KeyOrder(a: seq<Cell>, b: seq<Cell>, c: seq<Cell>)
    ensures KeyLeq(a, b) || KeyLeq(b, a)
    ensures KeyLeq(a, b) && KeyLeq(b, a) ==> a == b
    ensures KeyLeq(a, b) && KeyLeq(b, c) ==> KeyLeq(a, c)
  {
    if a != [] && b != [] {
      KeyOrder(a[1..], b[1..], if c != [] then c[1..] else []);
      CellOrder(a[0], b[0], if c != [] then c[0] else a[0]);
      if c != [] {
        CellOrder(b[0], c[0], a[0]);
      }
      assert a == [a[0]] + a[1..] && b == [b[0]] + b[1..];
    }
  }

  // ---------- what the order is ----------

  /** Texts are compared character by character; a beginning comes before what it begins. */
  lemma {:induction false} TextLeqExactly(a: string, b: string)
    ensures TextLeq(a, b) <==> a <= b || exists i :: 0 <= i < |a| && i < |b| && a[..i] == b[..i] && a[i] < b[i]
    decreases |a|
  {
    if a != "" && b != "" {
      TextLeqExactly(a[1..], b[1..]);
      if a[0] == b[0] {
        if a[1..] <= b[1..] {
          assert a == [a[0]] + a[1..] && b == [b[0]] + b[1..];
        }
        if i :| 0 <= i < |a[1..]| && i < |b[1..]| && a[1..][..i] == b[1..][..i] && a[1..][i] < b[1..][i] {
          assert a[..i + 1] == [a[0]] + a[1..][..i] && b[..i + 1] == [b[0]] + b[1..][..i];
        }
        if i :| 0 <= i < |a| && i < |b| && a[..i] == b[..i] && a[i] < b[i] {
          assert a[1..][..i - 1] == a[..i][1..] && b[1..][..i - 1] == b[..i][1..];
        }
      } else if a[0] < b[0] {
        assert a[..0] == b[..0];
      } else {
        assert forall i :: 0 < i <= |a| && i <= |b| ==> a[..i][0] == a[0] && b[..i][0] == b[0];
      }
    }
  }

  /** The first column in which two keys differ decides. */
  lemma {:induction false} KeyLeqExactly(a: seq<Cell>, b: seq<Cell>)
    requires |a| == |b|
    ensures KeyLeq(a, b) <==> a == b || exists i :: 0 <= i < |a| && a[..i] == b[..i] && a[i] != b[i] && CellLeq(a[i], b[i])
    decreases |a|
  {
    if a != [] {
      KeyLeqExactly(a[1..], b[1..]);
      if a[0] == b[0] {
        assert a[1..] == b[1..] ==> [a[0]] + a[1..] == [b[0]] + b[1..];
        assert a == [a[0]] + a[1..] && b == [b[0]] + b[1..];
        if i :| 0 <= i < |a[1..]| && a[1..][..i] == b[1..][..i] && a[1..][i] != b[1..][i] && CellLeq(a[1..][i], b[1..][i]) {
          assert a[..i + 1] == [a[0]] + a[1..][..i] && b[..i + 1] == [b[0]] + b[1..][..i];
        }
        if i :| 0 <= i < |a| && a[..i] == b[..i] && a[i] != b[i] && CellLeq(a[i], b[i]) {
          assert a[1..][..i - 1] == a[..i][1..] && b[1..][..i - 1] == b[..i][1..];
        }
      } else {
        assert a[..0] == b[..0];
        assert forall i :: 0 < i <= |a| ==> a[..i][0] == a[0] && b[..i][0] == b[0];
      }
    }
  }

  /** The first element in which two lists differ decides; a beginning comes first. */
  lemma {:induction false} ItemsLeqExactly(a: seq<Atom>, b: seq<Atom>)
    ensures ItemsLeq(a, b) <==> a <= b || exists i :: 0 <= i < |a| && i < |b| && a[..i] == b[..i] && a[i] != b[i] && AtomLeq(a[i], b[i])
    decreases |a|
  {
    if a != [] && b != [] {
      ItemsLeqExactly(a[1..], b[1..]);
      if a[0] == b[0] {
        if a[1..] <= b[1..] {
          assert a == [a[0]] + a[1..] && b == [b[0]] + b[1..];
        }
        if i :| 0 <= i < |a[1..]| && i < |b[1..]| && a[1..][..i] == b[1..][..i] && a[1..][i] != b[1..][i] && AtomLeq(a[1..][i], b[1..][i]) {
          assert a[..i + 1] == [a[0]] + a[1..][..i] && b[..i + 1] == [b[0]] + b[1..][..i];
        }
        if i :| 0 <= i < |a| && i < |b| && a[..i] == b[..i] && a[i] != b[i] && AtomLeq(a[i], b[i]) {
          assert a[1..][..i - 1] == a[..i][1..] && b[1..][..i - 1] == b[..i][1..];
        }
      } else {
        assert a[..0] == b[..0];
        assert forall i :: 0 < i <= |a| && i <= |b| ==> a[..i][0] == a[0] && b[..i][0] == b[0];
      }
    }
  }

  /** Numbers by their value, before lists, before texts; inside lists too. */
  lemma CellsCompare(m: int, n: int, s: string, t: string, x: seq<Atom>, y: seq<Atom>)
    ensures AtomLeq(Number(m), Number(n)) <==> m <= n
    ensures AtomLeq(Text(s), Text(t)) <==> TextLeq(s, t)
    ensures AtomLeq(Number(m), Text(s)) && !AtomLeq(Text(s), Number(m))
    ensures CellLeq(One(Number(m)), One(Number(n))) <==> m <= n
    ensures CellLeq(One(Text(s)), One(Text(t))) <==> TextLeq(s, t)
    ensures CellLeq(Many(x), Many(y)) <==> ItemsLeq(x, y)
    ensures CellLeq(One(Number(m)), Many(x)) && !CellLeq(Many(x), One(Number(m)))
    ensures CellLeq(Many(x), One(Text(s))) && !CellLeq(One(Text(s)), Many(x))
    ensures CellLeq(One(Number(m)), One(Text(s))) && !CellLeq(One(Text(s)), One(Number(m)))
  {
  }

  lemma {:induction false} LowerExactly(s: string, i: nat)
    requires i < |s|
    ensures |Lower(s)| == |s|
    ensures Lower(s)[i] == if 'A' <= s[i] <= 'Z' then s[i] - 'A' + 'a' else s[i]
  {
    if i > 0 {
      LowerExactly(s[1..], i - 1);
    } else if |s| > 1 {
      LowerExactly(s[1..], 0);
    }
  }

  /** What a column contributes: nothing counts as the empty text, texts are compared in lower case, and
      everything else as it is. */
  lemma SortValueExactly(item: Item, columns: seq<Name>, i: nat)
    requires i < |columns|
    ensures var value := SortKey(item, columns)[i];
            match Lookup(item, columns[i])
            case None => value == One(Text(""))
            case Some(c) =>
              if c.One? && c.atom.Text? then
                && value.One? && value.atom.Text? && |value.atom.text| == |c.atom.text|
                && forall k :: 0 <= k < |c.atom.text| ==>
                     value.atom.text[k] == if 'A' <= c.atom.text[k] <= 'Z' then c.atom.text[k] - 'A' + 'a' else c.atom.text[k]
              else value == c
  {
    var found := Lookup(item, columns[i]);
    if found.Some? && found.value.One? && found.value.atom.Text? {
      forall k | 0 <= k < |found.value.atom.text|
        ensures |Lower(found.value.atom.text)| == |found.value.atom.text|
        ensures Lower(found.value.atom.text)[k] ==
                if 'A' <= found.value.atom.text[k] <= 'Z' then found.value.atom.text[k] - 'A' + 'a' else found.value.atom.text[k]
      {
        LowerExactly(found.value.atom.text, k);
      }
      assert found.value.atom.text == "" ==> Lower(found.value.atom.text) == "";
    }
  }

  datatype Order = Order(columns: seq<Name>, reverse: bool)

  /** `a` may stand in front of `b`. */
  predicate InOrder(o: Order, a: Item, b: Item) {
    if o.reverse then KeyLeq(SortKey(b, o.columns), SortKey(a, o.columns)) else KeyLeq(SortKey(a, o.columns), SortKey(b, o.columns))
  }

  lemma InOrderIsTotal(o: Order, a: Item, b: Item, c: Item)
    ensures InOrder(o, a, b) || InOrder(o, b, a)
    ensures InOrder(o, a, b) && InOrder(o, b, c) ==> InOrder(o, a, c)
  {
    var x, y, z := SortKey(a, o.columns), SortKey(b, o.columns), SortKey(c, o.columns);
    if o.reverse {
      KeyOrder(z, y, x);
      KeyOrder(y, x, z);
    } else {
      KeyOrder(x, y, z);
    }
  }

  /** Puts an item behind all items that may stand in front of it. */
  function Insert(o: Order, data: seq<Item>, x: Item): seq<Item> {
    if data == [] then [x]
    else
      var n := |data| - 1;
      if InOrder(o, data[n], x) then data + [x] else Insert(o, data[..n], x) + [data[n]]
  }

  /** The stable sort, ascending or descending. */
  function Sorted(o: Order, data: seq<Item>): seq<Item> {
    if data == [] then [] else Insert(o, Sorted(o, data[..|data| - 1]), data[|data| - 1])
  }

  ghost predicate IsSorted(o: Order, data: seq<Item>) {
    forall i, k :: 0 <= i < k < |data| ==> InOrder(o, data[i], data[k])
  }

  lemma {:induction false} InsertIsSorted(o: Order, data: seq<Item>, x: Item)
    requires IsSorted(o, data)
    ensures IsSorted(o, Insert(o, data, x)) && multiset(Insert(o, data, x)) == multiset(data) + multiset{x}
  {
    if data != [] {
      var n := |data| - 1;
      var init, last := data[..n], data[n];
      assert data == init + [last];
      InOrderIsTotal(o, last, x, last);
      if InOrder(o, last, x) {
        forall i | 0 <= i < |data|
          ensures InOrder(o, data[i], x)
        {
          if i < n {
            InOrderIsTotal(o, data[i], last, x);
          }
        }
      } else {
        InsertIsSorted(o, init, x);
        var rest := Insert(o, init, x);
        forall i | 0 <= i < |rest|
          ensures InOrder(o, rest[i], last)
        {
          assert rest[i] in multiset(rest);
          assert rest[i] in multiset(init) || rest[i] == x;
        }
      }
    }
  }

  /** Sorting orders the items and neither loses nor invents one. */
  lemma {:induction false} SortedIsSorted(o: Order, data: seq<Item>)
    ensures IsSorted(o, Sorted(o, data)) && multiset(Sorted(o, data)) == multiset(data)
    ensures forall i, k :: 0 <= i < k < |Sorted(o, data)| ==>
              var a, b := SortKey(Sorted(o, data)[i], o.columns), SortKey(Sorted(o, data)[k], o.columns);
              if o.reverse then KeyLeq(b, a) else KeyLeq(a, b)
  {
    if data != [] {
      var n := |data| - 1;
      SortedIsSorted(o, data[..n]);
      InsertIsSorted(o, Sorted(o, data[..n]), data[n]);
      assert data == data[..n] + [data[n]];
    }
  }

  lemma {:induction false} FilteredFrom(filters: Filters, data: seq<Item>, i: nat)
    requires i < |Filtered(filters, data)|
    ensures Filtered(filters, data)[i] in data
  {
    var n := |data| - 1;
    if i < |Filtered(filters, data[..n])| {
      FilteredFrom(filters, data[..n], i);
      assert forall x :: x in data[..n] ==> x in data;
    }
  }

  lemma InsertAppend(o: Order, data: seq<Item>, last: Item, x: Item)
    ensures Insert(o, data + [last], x) == if InOrder(o, last, x) then data + [last] + [x] else Insert(o, data, x) + [last]
  {
    assert (data + [last])[..|data|] == data;
  }

  lemma SortedAppend(o: Order, data: seq<Item>, x: Item)
    ensures Sorted(o, data + [x]) == Insert(o, Sorted(o, data), x)
  {
    assert (data + [x])[..|data|] == data;
  }

  lemma FilteredAppend(filters: Filters, data: seq<Item>, x: Item)
    ensures Filtered(filters, data + [x]) == if Passes(filters, x) then Filtered(filters, data) + [x] else Filtered(filters, data)
  {
    assert (data + [x])[..|data|] == data;
  }

  /** Behind items that may all stand in front of it, an item is just appended. */
  lemma InsertLast(o: Order, filters: Filters, data: seq<Item>, x: Item)
    requires forall i :: 0 <= i < |data| ==> InOrder(o, data[i], x)
    ensures Insert(o, Filtered(filters, data), x) == Filtered(filters, data) + [x]
  {
    var kept := Filtered(filters, data);
    if kept != [] {
      FilteredFrom(filters, data, |kept| - 1);
    }
  }

  lemma {:induction false} FilterInsert(o: Order, filters: Filters, data: seq<Item>, x: Item)
    requires IsSorted(o, data)
    ensures Filtered(filters, Insert(o, data, x)) ==
            if Passes(filters, x) then Insert(o, Filtered(filters, data), x) else Filtered(filters, data)
  {
    if data == [] {
      FilteredAppend(filters, [], x);
      assert [] + [x] == [x];
    } else {
      var n := |data| - 1;
      var init, last := data[..n], data[n];
      assert data == init + [last];
      if InOrder(o, last, x) {
        FilteredAppend(filters, data, x);
        forall i | 0 <= i < |data|
          ensures InOrder(o, data[i], x)
        {
          InOrderIsTotal(o, data[i], last, x);
          InOrderIsTotal(o, last, last, x);
        }
        InsertLast(o, filters, data, x);
      } else {
        FilterInsert(o, filters, init, x);
        FilteredAppend(filters, Insert(o, init, x), last);
        FilteredAppend(filters, init, last);
        InsertAppend(o, Filtered(filters, init), last, x);
      }
    }
  }

  /** Filtering first and sorting first come to the same. */
  lemma {:induction false} FilterCommutesWithSort(o: Order, filters: Filters, data: seq<Item>)
    ensures Filtered(filters, Sorted(o, data)) == Sorted(o, Filtered(filters, data))
  {
    if data != [] {
      var init, last := data[..|data| - 1], data[|data| - 1];
      assert data == init + [last];
      FilterCommutesWithSort(o, filters, init);
      OneMore(o, filters, init, last);
    }
  }

  lemma OneMore(o: Order, filters: Filters, data: seq<Item>, x: Item)
    requires Filtered(filters, Sorted(o, data)) == Sorted(o, Filtered(filters, data))
    ensures Filtered(filters, Sorted(o, data + [x])) == Sorted(o, Filtered(filters, data + [x]))
  {
    SortedIsSorted(o, data);
    SortedAppend(o, data, x);
    FilteredAppend(filters, data, x);
    FilterInsert(o, filters, Sorted(o, data), x);
    SortedAppend(o, Filtered(filters, data), x);
  }

  /** The items with a given sort key. */
  function WithKey(columns: seq<Name>, key: seq<Cell>, data: seq<Item>): seq<Item> {
    if data == [] then []
    else
      var n := |data| - 1;
      WithKey(columns, key, data[..n]) + if SortKey(data[n], columns) == key then [data[n]] else []
  }

  lemma {:induction false} InsertIsStable(o: Order, data: seq<Item>, x: Item, key: seq<Cell>)
    ensures WithKey(o.columns, key, Insert(o, data, x)) ==
            WithKey(o.columns, key, data) + if SortKey(x, o.columns) == key then [x] else []
  {
    if data == [] {
      assert [x][..0] == [];
    } else {
      var n := |data| - 1;
      if InOrder(o, data[n], x) {
        assert (data + [x])[..|data|] == data;
      } else {
        InsertIsStable(o, data[..n], x, key);
        var rest := Insert(o, data[..n], x);
        assert (rest + [data[n]])[..|rest|] == rest;
        KeyOrder(SortKey(x, o.columns), SortKey(x, o.columns), SortKey(x, o.columns));
      }
    }
  }

  /** Items with the same key keep their order, in reversed sorts too. */
  lemma {:induction false} SortIsStable(o: Order, data: seq<Item>, key: seq<Cell>)
    ensures WithKey(o.columns, key, Sorted(o, data)) == WithKey(o.columns, key, data)
  {
    if data != [] {
      var n := |data| - 1;
      SortIsStable(o, data[..n], key);
      InsertIsStable(o, Sorted(o, data[..n]), data[n], key);
    }
  }

  // ---------- paging ----------

  datatype Page = Page(items: seq<Item>) | OffsetError | LimitError | EmptyRangeError

  /** Whether there is such a page: the offset is in range, the limit positive, and without a limit
      something lies behind the offset. */
  predicate HasPage(data: seq<Item>, offset: Option<int>, limit: Option<int>) {
    || (offset.None? && limit.None?)
    || (&& (offset.Some? ==> 0 <= offset.value <= |data|)
        && (if limit.Some? then limit.value > 0 else offset.value < |data|))
  }

  /** The page at `offset`: the items from there on, as many as the limit allows and there are. */
  ghost predicate IsPage(data: seq<Item>, offset: Option<int>, limit: Option<int>, items: seq<Item>) {
    var low := if offset.Some? then offset.value else 0;
    && 0 <= low <= |data|
    && |items| == (if limit.Some? && limit.value < |data| - low then limit.value else |data| - low)
    && forall i :: 0 <= i < |items| ==> items[i] == data[low + i]
  }

  method PaginateGetResults(data: seq<Item>, offset: Option<int>, limit: Option<int>) returns (page: Page)
    ensures page.Page? <==> HasPage(data, offset, limit)
    ensures page.Page? ==> IsPage(data, offset, limit, page.items)
    ensures page.OffsetError? <==> offset.Some? && !(0 <= offset.value <= |data|)
    ensures page.LimitError? ==> limit.Some? && limit.value < 0
    ensures page == Paginated(data, offset, limit)
  {
    if offset.None? && limit.None? {
      return Page(data);
    }
    var low := if offset.None? then 0 else offset.value;
    var high := if limit.None? then |data| else low + limit.value;
    if low < 0 || low > |data| {
      page := OffsetError;
    } else if high < 0 {
      page := LimitError;
    } else if low >= high {
      page := EmptyRangeError;
    } else {
      page := Page(data[low..if high <= |data| then high else |data|]);
    }
  }

  function Paginated(data: seq<Item>, offset: Option<int>, limit: Option<int>): Page {
    if offset.None? && limit.None? then Page(data)
    else
      var low := if offset.None? then 0 else offset.value;
      var high := if limit.None? then |data| else low + limit.value;
      if low < 0 || low > |data| then OffsetError
      else if high < 0 then LimitError
      else if low >= high then EmptyRangeError
      else Page(data[low..if high <= |data| then high else |data|])
  }

  lemma PageExactly(data: seq<Item>, offset: Option<int>, limit: Option<int>)
    ensures var page := Paginated(data, offset, limit);
            && (page.Page? <==> HasPage(data, offset, limit))
            && (page.Page? ==> IsPage(data, offset, limit, page.items))
  {
  }

  /** All pages from `offset` on, one after the other. */
  function Pages(data: seq<Item>, offset: nat, limit: nat): seq<Item>
    requires limit > 0
    decreases if offset <= |data| then |data| + 1 - offset else 0
  {
    if offset > |data| then []
    else
      var page := Paginated(data, Some(offset), Some(limit));
      (if page.Page? then page.items else []) + Pages(data, offset + limit, limit)
  }

  /** Every page up to the end of the list comes without error and is no longer than the limit, and
      together they are the list. */
  lemma {:induction false} PagesAreAll(data: seq<Item>, offset: nat, limit: nat)
    requires limit > 0
    ensures offset <= |data| ==> var page := Paginated(data, Some(offset), Some(limit)); page.Page? && |page.items| <= limit
    ensures Pages(data, offset, limit) == if offset <= |data| then data[offset..] else []
    decreases if offset <= |data| then |data| + 1 - offset else 0
  {
    if offset <= |data| {
      PagesAreAll(data, offset + limit, limit);
      var high := if offset + limit <= |data| then offset + limit else |data|;
      assert Paginated(data, Some(offset), Some(limit)) == Page(data[offset..high]);
      assert data[offset..] == data[offset..high] + data[high..];
    }
  }

  // ---------- the whole pipeline ----------

  /** Keeps the wanted columns of an item. */
  function Restricted(item: Item, keys: set<Name>): Item {
    seq(|item|, i requires 0 <= i < |item| => map k | k in item[i] && k in keys :: item[i][k])
  }

  function AllRestricted(data: seq<Item>, keys: set<Name>): (r: seq<Item>)
    ensures |r| == |data|
  {
    seq(|data|, i requires 0 <= i < |data| => Restricted(data[i], keys))
  }

  datatype Query = Query(filters: Filters, order: Order, keys: set<Name>)

  /** What a query selects before it is cut into pages. */
  function Selected(q: Query, data: seq<Item>): seq<Item> {
    var filtered := Filtered(q.filters, data);
    var sorted := if q.order.columns != [] then Sorted(q.order, filtered) else filtered;
    if q.keys != {} then AllRestricted(sorted, q.keys) else sorted
  }

  /** What a query selects: the items that pass, in the order asked for or else in theirs, cut down to the
      columns asked for. */
  lemma SelectedExactly(q: Query, data: seq<Item>) returns (sorted: seq<Item>)
    ensures multiset(sorted) == multiset(Filtered(q.filters, data))
    ensures q.order.columns == [] ==> sorted == Filtered(q.filters, data)
    ensures q.order.columns != [] ==> forall i, k :: 0 <= i < k < |sorted| ==>
              var a, b := SortKey(sorted[i], q.order.columns), SortKey(sorted[k], q.order.columns);
              if q.order.reverse then KeyLeq(b, a) else KeyLeq(a, b)
    ensures |Selected(q, data)| == |sorted|
    ensures forall i :: 0 <= i < |sorted| ==> |Selected(q, data)[i]| == |sorted[i]|
    ensures forall i, c, key :: 0 <= i < |sorted| && 0 <= c < |sorted[i]| && |Selected(q, data)[i]| == |sorted[i]| ==>
              && (key in Selected(q, data)[i][c] <==> key in sorted[i][c] && (q.keys == {} || key in q.keys))
              && (key in Selected(q, data)[i][c] ==> Selected(q, data)[i][c][key] == sorted[i][c][key])
  {
    var filtered := Filtered(q.filters, data);
    sorted := if q.order.columns != [] then Sorted(q.order, filtered) else filtered;
    SortedIsSorted(q.order, filtered);
  }

  method RemoveUnwantedKeys(data: seq<Item>, keys: set<Name>) returns (restricted: seq<Item>)
    ensures restricted == AllRestricted(data, keys)
    ensures |restricted| == |data|
    ensures forall i, c :: 0 <= i < |data| && 0 <= c < |data[i]| ==>
              |restricted[i]| == |data[i]| && restricted[i][c].Keys == data[i][c].Keys * keys
    ensures forall i, c, key :: 0 <= i < |data| && 0 <= c < |data[i]| && |restricted[i]| == |data[i]| && key in restricted[i][c] ==>
              key in data[i][c] && restricted[i][c][key] == data[i][c][key]
  {
    restricted := data;
    var i := 0;
    while i < |data|
      invariant 0 <= i <= |data| == |restricted|
      invariant forall k :: 0 <= k < i ==> restricted[k] == Restricted(data[k], keys)
      invariant forall k :: i <= k < |data| ==> restricted[k] == data[k]
    {
      restricted := restricted[i := Restricted(data[i], keys)];
      i := i + 1;
    }
  }

  lemma {:induction false} NoFilters(data: seq<Item>)
    ensures Filtered(map[], data) == data
  {
    if data != [] {
      NoFilters(data[..|data| - 1]);
      assert data == data[..|data| - 1] + [data[|data| - 1]];
    }
  }

  method PostProcessGetData(data: seq<Item>, q: Query, offset: Option<int>, limit: Option<int>) returns (page: Page)
    ensures page.Page? <==> HasPage(Selected(q, data), offset, limit)
    ensures page.Page? ==> IsPage(Selected(q, data), offset, limit, page.items)
    ensures page == Paginated(Selected(q, data), offset, limit)
  {
    var processed := data;
    NoFilters(data);
    if q.filters != map[] {
      processed := FilterGetResults(processed, q.filters);
    }
    if q.order.columns != [] {
      processed := Sorted(q.order, processed);
    }
    if q.keys != {} {
      processed := RemoveUnwantedKeys(processed, q.keys);
    }
    page := PaginateGetResults(processed, offset, limit);
  }

  /** The pages of a query, put together, are all that it selects. */
  lemma QueryPages(q: Query, data: seq<Item>, limit: nat)
    requires limit > 0
    ensures Pages(Selected(q, data), 0, limit) == Selected(q, data)
    ensures forall i: nat :: i * limit <= |Selected(q, data)| ==>
              var page := Paginated(Selected(q, data), Some(i * limit), Some(limit)); page.Page? && |page.items| <= limit
  {
    PagesAreAll(Selected(q, data), 0, limit);
    forall i: nat | i * limit <= |Selected(q, data)|
      ensures var page := Paginated(Selected(q, data), Some(i * limit), Some(limit)); page.Page? && |page.items| <= limit
    {
      PagesAreAll(Selected(q, data), i * limit, limit);
    }
  }
}
