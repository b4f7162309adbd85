/**
 * The header store of a request: a `LinkedHashMap<String, List<String>>`, i.e. a
 * multimap whose names keep the order in which they were first added and whose
 * values under one name keep the order in which they were added.
 *
 * It is modelled as the map's entry sequence in insertion order. Flattening it
 * gives the header lines that are handed to the transport, one line per value.
 */
module Headers {
  import opened Wrappers

  /** A header name with the values stored under it. */
  type Entry = (string, seq<string>)

  /** One outgoing header line: a name and one of its values. */
  type Line = (string, string)

  /** The entries of the map, in insertion order of their names. */
  type HeaderMap = seq<Entry>

  /** Names are case-sensitive and stored once; no name holds an empty value list. */
  ghost predicate WellFormed(h: HeaderMap) {
    && (forall i, j :: 0 <= i < j < |h| ==> h[i].0 != h[j].0)
    && (forall i :: 0 <= i < |h| ==> h[i].1 != [])
  }

  /** The map's key set, in iteration order. */
  function Keys(h: HeaderMap): seq<string> {
    seq(|h|, i requires 0 <= i < |h| => h[i].0)
  }

  /** The position of name `k` in the entry sequence, if it is present. */
  function IndexOf(h: HeaderMap, k: string): (r: Option<nat>)
    ensures r.Some? ==> r.value < |h| && h[r.value].0 == k
    ensures r.Some? ==> forall j :: 0 <= j < r.value ==> h[j].0 != k
    ensures r.None? ==> forall j :: 0 <= j < |h| ==> h[j].0 != k
  {
    if h == [] then None
    else if h[0].0 == k then Some(0)
    else match IndexOf(h[1..], k)
      case None => None
      case Some(i) => Some(i + 1)
  }

  /** `Map.get`: the value list stored under `k`, or nothing when `k` is absent. */
  function Lookup(h: HeaderMap, k: string): Option<seq<string>> {
    match IndexOf(h, k)
    case None => None
    case Some(i) => Some(h[i].1)
  }

  /** The values stored under `k`, empty when `k` is absent. */
  function ValuesOf(h: HeaderMap, k: string): seq<string> {
    Lookup(h, k).GetOr([])
  }

  /**
   * `computeIfAbsent(k, d -> new ArrayList<>()).add(v)`: a new name gets a fresh
   * one-element list at the end of the map; an existing name gets `v` appended to
   * its list in place.
   */
  function AddValue(h: HeaderMap, k: string, v: string): (r: HeaderMap)
    ensures Keys(r) == if k in Keys(h) then Keys(h) else Keys(h) + [k]
  {
    match IndexOf(h, k)
    case None =>
      assert k !in Keys(h);
      h + [(k, [v])]
    case Some(i) =>
      assert Keys(h)[i] == k;
      h[i := (k, h[i].1 + [v])]
  }

  /** Adding a value keeps names distinct and value lists non-empty. */
  lemma AddValueWellFormed(h: HeaderMap, k: string, v: string)
    requires WellFormed(h)
    ensures WellFormed(AddValue(h, k, v))
  {
  }

  /** The lines of one entry, in the order of its values. */
  function Lines(k: string, vs: seq<string>): seq<Line> {
    seq(|vs|, i requires 0 <= i < |vs| => (k, vs[i]))
  }

  /**
   * The nested `forEach` over the map and each value list: one line per stored
   * value, entry after entry (`FlattenAt` gives each line's position).
   */
  function Flatten(h: HeaderMap): (r: seq<Line>)
    ensures |r| == ValueCount(h)
  {
    if h == [] then []
    else
      Flatten(h[..|h| - 1]) + Lines(h[|h| - 1].0, h[|h| - 1].1)
  }

  /** The total number of values stored in the map. */
  function ValueCount(h: HeaderMap): nat {
    if h == [] then 0 else ValueCount(h[..|h| - 1]) + |h[|h| - 1].1|
  }

  /** The values of the lines named `k`, in line order. */
  function ValuesNamed(lines: seq<Line>, k: string): seq<string> {
    if lines == [] then []
    else
      var last := lines[|lines| - 1];
      ValuesNamed(lines[..|lines| - 1], k) + (if last.0 == k then [last.1] else [])
  }

  /** The names of the lines, in line order. */
  function Names(lines: seq<Line>): seq<string> {
    seq(|lines|, i requires 0 <= i < |lines| => lines[i].0)
  }

  /** `s` with every element after its first occurrence dropped. */
  function FirstOccurrences(s: seq<string>): seq<string> {
    if s == [] then []
    else
      var last := s[|s| - 1];
      FirstOccurrences(s[..|s| - 1]) + (if last in s[..|s| - 1] then [] else [last])
  }

  // ---------------------------------------------------------------------------
  // Adding a value

  /** The value lands at the end of `k`'s list (a new list when `k` was absent); every other name's list is unchanged. */
  lemma AddValueLookup(h: HeaderMap, k: string, v: string)
    ensures Lookup(AddValue(h, k, v), k) == Some(ValuesOf(h, k) + [v])
    ensures forall k' :: k' != k ==> Lookup(AddValue(h, k, v), k') == Lookup(h, k')
  {
    var r := AddValue(h, k, v);
    forall k' | k' != k
      ensures Lookup(r, k') == Lookup(h, k')
    {
      IndexOfUnchanged(h, r, k');
    }
    match IndexOf(h, k)
    case None =>
      IndexOfIs(r, k, |h|);
      assert ValuesOf(h, k) + [v] == [v];
    case Some(i) =>
      IndexOfIs(r, k, i);
  }

  /** The position of a name is the first entry carrying it. */
  lemma IndexOfIs(h: HeaderMap, k: string, i: nat)
    requires i < |h| && h[i].0 == k
    requires forall j :: 0 <= j < i ==> h[j].0 != k
    ensures IndexOf(h, k) == Some(i)
  {
  }

  /** Lookups of a name that every changed entry avoids agree. */
  lemma IndexOfUnchanged(h: HeaderMap, r: HeaderMap, k: string)
    requires |h| <= |r|
    requires forall j :: 0 <= j < |h| ==> (h[j].0 == k <==> r[j].0 == k) && (h[j].0 == k ==> r[j] == h[j])
    requires forall j :: |h| <= j < |r| ==> r[j].0 != k
    ensures IndexOf(r, k) == IndexOf(h, k)
    ensures Lookup(r, k) == Lookup(h, k)
  {
  }

  /**
   * Where the new line appears once flattened: right after the lines already
   * stored under `k`, or at the very end when `k` is new.
   */
  lemma AddValueFlatten(h: HeaderMap, k: string, v: string)
    ensures IndexOf(h, k).None? ==> Flatten(AddValue(h, k, v)) == Flatten(h) + [(k, v)]
    ensures IndexOf(h, k).Some? ==>
      var i := IndexOf(h, k).value;
      && Flatten(h) == Flatten(h[..i + 1]) + Flatten(h[i + 1..])
      && Flatten(AddValue(h, k, v)) == Flatten(h[..i + 1]) + [(k, v)] + Flatten(h[i + 1..])
  {
    match IndexOf(h, k)
    case None =>
      FlattenSnoc(h, (k, [v]));
      assert Lines(k, [v]) == [(k, v)];
    case Some(i) =>
      FlattenUpdate(h, i, v);
  }

  /** Appending `v` to the list of entry `i` inserts one line right after that entry's lines. */
  lemma FlattenUpdate(h: HeaderMap, i: nat, v: string)
    requires i < |h|
    ensures Flatten(h) == Flatten(h[..i + 1]) + Flatten(h[i + 1..])
    ensures Flatten(h[i := (h[i].0, h[i].1 + [v])]) == Flatten(h[..i + 1]) + [(h[i].0, v)] + Flatten(h[i + 1..])
  {
    var pre, suf, e := h[..i], h[i + 1..], (h[i].0, h[i].1 + [v]);
    var entry, line := Flatten(h[..i + 1]), (h[i].0, v);
    assert h == h[..i + 1] + suf;
    FlattenConcat(h[..i + 1], suf);
    assert h[..i + 1] == pre + [h[i]];
    FlattenSnoc(pre, h[i]);
    LinesSnoc(h[i].0, h[i].1, v);
    FlattenSnoc(pre, e);
    assert Flatten(pre + [e]) == entry + [line];
    assert h[i := e] == (pre + [e]) + suf;
    FlattenConcat(pre + [e], suf);
  }

  /** One more value gives its entry one more line at the end. */
  lemma LinesSnoc(k: string, vs: seq<string>, v: string)
    ensures Lines(k, vs + [v]) == Lines(k, vs) + [(k, v)]
  {
  }

  /** Each added value adds exactly one line, the new one, and removes none. */
  lemma AddValueOneMoreLine(h: HeaderMap, k: string, v: string)
    ensures |Flatten(AddValue(h, k, v))| == |Flatten(h)| + 1
    ensures multiset(Flatten(AddValue(h, k, v))) == multiset(Flatten(h)) + multiset{(k, v)}
  {
    AddValueFlatten(h, k, v);
  }

  // ---------------------------------------------------------------------------
  // Flattening

  /** Flattening distributes over concatenation of entry sequences. */
  lemma {:induction false} FlattenConcat(a: HeaderMap, b: HeaderMap)
    ensures Flatten(a + b) == Flatten(a) + Flatten(b)
  {
    if b == [] {
      assert a + b == a;
    } else {
      var b', e := b[..|b| - 1], b[|b| - 1];
      assert a + b == (a + b') + [e] && b == b' + [e];
      FlattenConcat(a, b');
      FlattenSnoc(a + b', e);
      FlattenSnoc(b', e);
    }
  }

  /** Flattening a map with one more entry at the end adds that entry's lines at the end. */
  lemma FlattenSnoc(a: HeaderMap, e: Entry)
    ensures Flatten(a + [e]) == Flatten(a) + Lines(e.0, e.1)
  {
    assert (a + [e])[..|a|] == a;
  }

  /**
   * Layout of the flattened lines: value `j` of entry `i` is line
   * `ValueCount(h[..i]) + j`. With the line count, this fixes every line: entries
   * come out in insertion order, each as one block of its values in order.
   */
  lemma {:induction false} FlattenAt(h: HeaderMap, i: nat, j: nat)
    requires i < |h| && j < |h[i].1|
    ensures ValueCount(h[..i]) + j < |Flatten(h)|
    ensures Flatten(h)[ValueCount(h[..i]) + j] == (h[i].0, h[i].1[j])
  {
    var init, e := h[..|h| - 1], h[|h| - 1];
    assert h == init + [e];
    FlattenSnoc(init, e);
    if i < |init| {
      assert h[..i] == init[..i];
      FlattenAt(init, i, j);
    } else {
      assert h[..i] == init;
    }
  }

  /** Selecting lines by name distributes over concatenation. */
  lemma {:induction false} ValuesNamedConcat(a: seq<Line>, b: seq<Line>, k: string)
    ensures ValuesNamed(a + b, k) == ValuesNamed(a, k) + ValuesNamed(b, k)
  {
    if b == [] {
      assert a + b == a;
    } else {
      var c := a + b;
      assert c[..|c| - 1] == a + b[..|b| - 1];
      ValuesNamedConcat(a, b[..|b| - 1], k);
    }
  }

  /** The lines of one entry carry its values under its own name and no other. */
  lemma {:induction false} ValuesNamedLines(n: string, vs: seq<string>, k: string)
    ensures ValuesNamed(Lines(n, vs), k) == if n == k then vs else []
  {
    if vs != [] {
      var vs' := vs[..|vs| - 1];
      assert Lines(n, vs)[..|vs| - 1] == Lines(n, vs');
      ValuesNamedLines(n, vs', k);
      assert vs == vs' + [vs[|vs| - 1]];
    }
  }

  /** Dropping the last entry keeps a map well formed, and the last name occurs nowhere before it. */
  lemma WellFormedPrefix(h: HeaderMap)
    requires WellFormed(h) && h != []
    ensures WellFormed(h[..|h| - 1])
    ensures h[|h| - 1].0 !in Keys(h[..|h| - 1])
  {
  }

  /** Appending an entry whose name is new adds its values under that name and changes no other lookup. */
  lemma ValuesOfSnoc(a: HeaderMap, e: Entry, k: string)
    requires e.0 !in Keys(a)
    ensures ValuesOf(a + [e], k) == ValuesOf(a, k) + (if e.0 == k then e.1 else [])
  {
    var h := a + [e];
    if e.0 == k {
      forall j | 0 <= j < |a|
        ensures a[j].0 != k && h[j].0 != k
      {
        assert Keys(a)[j] == h[j].0;
      }
      IndexOfIs(h, k, |a|);
      assert IndexOf(a, k) == None;
      assert ValuesOf(a, k) + e.1 == e.1;
    } else {
      IndexOfUnchanged(a, h, k);
    }
  }

  /**
   * Multiplicity and order per name: the flattened lines named `k` carry exactly
   * the values stored under `k`, in the order they were added.
   */
  lemma {:induction false} FlattenValuesNamed(h: HeaderMap, k: string)
    requires WellFormed(h)
    ensures ValuesNamed(Flatten(h), k) == ValuesOf(h, k)
  {
    if h != [] {
      var init, e := h[..|h| - 1], h[|h| - 1];
      assert h == init + [e];
      WellFormedPrefix(h);
      FlattenValuesNamed(init, k);
      FlattenSnoc(init, e);
      ValuesNamedConcat(Flatten(init), Lines(e.0, e.1), k);
      ValuesNamedLines(e.0, e.1, k);
      ValuesOfSnoc(init, e, k);
    }
  }

  /** Every flattened line is named after an entry of the map. */
  lemma {:induction false} FlattenNamesAreKeys(h: HeaderMap)
    ensures forall l :: l in Flatten(h) ==> l.0 in Keys(h)
  {
    if h != [] {
      var init := h[..|h| - 1];
      FlattenNamesAreKeys(init);
      forall l | l in Flatten(h)
        ensures l.0 in Keys(h)
      {
        if l in Flatten(init) {
          var j :| 0 <= j < |init| && init[j].0 == l.0;
          assert Keys(h)[j] == l.0;
        } else {
          assert Keys(h)[|h| - 1] == l.0;
        }
      }
    }
  }

  /** A run of one name not seen before contributes that name once, at the end. */
  lemma {:induction false} FirstOccurrencesRun(s: seq<string>, k: string, n: nat)
    requires k !in s && n >= 1
    ensures FirstOccurrences(s + seq(n, _ => k)) == FirstOccurrences(s) + [k]
  {
    var t := s + seq(n, _ => k);
    if n == 1 {
      assert t[..|t| - 1] == s;
    } else {
      assert t[..|t| - 1] == s + seq(n - 1, _ => k);
      FirstOccurrencesRun(s, k, n - 1);
      assert t[|t| - 1] == t[|t| - 2];
    }
  }

  /**
   * Order of names: reading the flattened lines and keeping each name at its
   * first appearance gives the map's names in insertion order.
   */
  lemma {:induction false} FlattenKeyOrder(h: HeaderMap)
    requires WellFormed(h)
    ensures FirstOccurrences(Names(Flatten(h))) == Keys(h)
  {
    if h != [] {
      var init, e := h[..|h| - 1], h[|h| - 1];
      assert h == init + [e];
      WellFormedPrefix(h);
      FlattenKeyOrder(init);
      FlattenSnoc(init, e);
      var s := Names(Flatten(init));
      NamesConcat(Flatten(init), Lines(e.0, e.1));
      assert Names(Lines(e.0, e.1)) == seq(|e.1|, _ => e.0);
      NewNameNotFlattened(init, e.0);
      FirstOccurrencesRun(s, e.0, |e.1|);
      assert Keys(h) == Keys(init) + [e.0];
    }
  }

  /** Names distribute over concatenation of lines. */
  lemma NamesConcat(a: seq<Line>, b: seq<Line>)
    ensures Names(a + b) == Names(a) + Names(b)
  {
  }

  /** A name absent from the map names no flattened line. */
  lemma NewNameNotFlattened(h: HeaderMap, k: string)
    requires k !in Keys(h)
    ensures k !in Names(Flatten(h))
  {
    FlattenNamesAreKeys(h);
  }

  /** One more element is kept exactly when it has not occurred before. */
  lemma FirstOccurrencesSnoc(s: seq<string>, x: string)
    ensures FirstOccurrences(s + [x]) == FirstOccurrences(s) + (if x in s then [] else [x])
  {
    assert (s + [x])[..|s|] == s;
  }

  /** Adding a value to a map whose names are the first occurrences in `s` yields the first occurrences in `s + [k]`. */
  lemma AddValueFirstOccurrences(h: HeaderMap, s: seq<string>, k: string, v: string)
    requires Keys(h) == FirstOccurrences(s)
    ensures Keys(AddValue(h, k, v)) == FirstOccurrences(s + [k])
  {
    FirstOccurrencesSnoc(s, k);
    FirstOccurrencesElements(s, k);
  }

  /** Keeping first occurrences drops no element and adds none. */
  lemma {:induction false} FirstOccurrencesElements(s: seq<string>, x: string)
    ensures x in FirstOccurrences(s) <==> x in s
  {
    if s != [] {
      var init := s[..|s| - 1];
      FirstOccurrencesElements(init, x);
      assert s == init + [s[|s| - 1]];
    }
  }

  /** A sequence without repetitions is its own first occurrences. */
  lemma {:induction false} FirstOccurrencesDistinct(s: seq<string>)
    requires forall i, j :: 0 <= i < j < |s| ==> s[i] != s[j]
    ensures FirstOccurrences(s) == s
  {
    if s != [] {
      var init := s[..|s| - 1];
      FirstOccurrencesDistinct(init);
      assert s[|s| - 1] !in init;
      assert s == init + [s[|s| - 1]];
    }
  }
}
