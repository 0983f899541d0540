/** What `draw` renders when it is not throttled (script.js:130-156): one card per analysis type
    whose result is truthy, in the table's order, then a spinner while loading. Markup and the
    markdown transform are not modelled: a card carries the raw result text it would render. */
module Display {
  datatype AnalysisType = AnalysisType(key: string, title: string)

  datatype Entry = Card(key: string, title: string, markdown: string) | Spinner

  /** The fixed table of script.js:130-134. */
  const AnalysisTypes: seq<AnalysisType> := [
    AnalysisType("basic", "Basic Analysis"),
    AnalysisType("intermediate", "Intermediate Analysis"),
    AnalysisType("judge", "LLM as a Judge Analysis")
  ]

  /** `results[key]` is truthy: present and not the empty string. */
  predicate Truthy(results: map<string, string>, key: string) {
    key in results && results[key] != ""
  }

  /** The card for one table entry, or nothing when its result is falsy. */
  function CardFor(t: AnalysisType, results: map<string, string>): (r: seq<Entry>)
    ensures |r| <= 1
    ensures r != [] <==> Truthy(results, t.key)
  {
    if Truthy(results, t.key) then [Card(t.key, t.title, results[t.key])] else []
  }

  /** `table.filter(({ key }) => results[key]).map(...)`. */
  function Cards(table: seq<AnalysisType>, results: map<string, string>): seq<Entry> {
    if table == [] then [] else CardFor(table[0], results) + Cards(table[1..], results)
  }

  /** Every card is a table entry whose result is truthy and shows that result, and every table
      entry whose result is truthy has its card. */
  lemma {:induction false} CardsMembers(table: seq<AnalysisType>, results: map<string, string>)
    ensures var r := Cards(table, results);
      && |r| <= |table|
      && (forall a :: 0 <= a < |r| ==>
            r[a].Card? && Truthy(results, r[a].key) && r[a].markdown == results[r[a].key] &&
            AnalysisType(r[a].key, r[a].title) in table)
      && (forall t :: t in table && Truthy(results, t.key) ==> Card(t.key, t.title, results[t.key]) in r)
  {
    if table != [] {
      CardsMembers(table[1..], results);
      var rest := Cards(table[1..], results);
      var r := Cards(table, results);
      assert r == CardFor(table[0], results) + rest;
      assert forall t :: t in table ==> t == table[0] || t in table[1..];
    }
  }

  /** Filtering a concatenated table yields the first part's cards before the second part's:
      the cards keep the relative order of their table entries. */
  lemma {:induction false} CardsAppend(t1: seq<AnalysisType>, t2: seq<AnalysisType>, results: map<string, string>)
    ensures Cards(t1 + t2, results) == Cards(t1, results) + Cards(t2, results)
  {
    if t1 != [] {
      assert (t1 + t2)[1..] == t1[1..] + t2;
      CardsAppend(t1[1..], t2, results);
    } else {
      assert t1 + t2 == t2;
    }
  }

  /** The list handed to `render`: the cards, then a spinner when loading. */
  function Contents(results: map<string, string>, loading: bool): seq<Entry> {
    Cards(AnalysisTypes, results) + (if loading then [Spinner] else [])
  }

  /** There is one entry per truthy card plus one if loading; the spinner is present exactly
      when loading, and then it is the last entry and the only spinner. */
  lemma ContentsShape(results: map<string, string>, loading: bool)
    ensures var r := Contents(results, loading);
      && |r| == |Cards(AnalysisTypes, results)| + (if loading then 1 else 0)
      && (loading <==> (|r| > 0 && r[|r| - 1] == Spinner))
      && (forall a :: 0 <= a < |r| && r[a] == Spinner ==> a == |r| - 1)
  {
    CardsMembers(AnalysisTypes, results);
  }

  /** The rendered list shows a card for `key`. */
  predicate Shows(entries: seq<Entry>, key: string) {
    exists e :: e in entries && e.Card? && e.key == key
  }

  /** A card appears for exactly the analysis types whose result is truthy: an absent key, an
      empty result or a key outside the table never shows, whether loading or not. */
  lemma ShowsExactly(results: map<string, string>, loading: bool, key: string)
    ensures Shows(Contents(results, loading), key) <==> (key == "basic" || key == "intermediate" || key == "judge") && Truthy(results, key)
  {
    var cards := Cards(AnalysisTypes, results);
    var r := Contents(results, loading);
    CardsMembers(AnalysisTypes, results);
    assert forall e :: e in r && e.Card? ==> e in cards;
    if (key == "basic" || key == "intermediate" || key == "judge") && Truthy(results, key) {
      var i := if key == "basic" then 0 else if key == "intermediate" then 1 else 2;
      var t := AnalysisTypes[i];
      assert t in AnalysisTypes;
      assert Card(t.key, t.title, results[t.key]) in r;
    }
    if Shows(r, key) {
      var e :| e in r && e.Card? && e.key == key;
      assert AnalysisType(e.key, e.title) in AnalysisTypes;
    }
  }

  /** The fixed table's cards appear in the order basic, intermediate, judge. */
  lemma TableOrder(results: map<string, string>)
    ensures Cards(AnalysisTypes, results) ==
      CardFor(AnalysisType("basic", "Basic Analysis"), results) +
      CardFor(AnalysisType("intermediate", "Intermediate Analysis"), results) +
      CardFor(AnalysisType("judge", "LLM as a Judge Analysis"), results)
  {
    var t := AnalysisTypes;
    assert t == [t[0]] + [t[1]] + [t[2]];
    CardsAppend([t[0]] + [t[1]], [t[2]], results);
    CardsAppend([t[0]], [t[1]], results);
  }

  /** Each card shows the current result text of its key. */
  lemma CardShowsResult(results: map<string, string>, loading: bool, a: nat)
    requires a < |Contents(results, loading)| && Contents(results, loading)[a].Card?
    ensures var e := Contents(results, loading)[a];
      e.key in results && e.markdown == results[e.key] && e.markdown != ""
  {
    CardsMembers(AnalysisTypes, results);
    ContentsShape(results, loading);
  }

  /** Results that agree on the table's keys render the same list: keys outside the table never
      influence what is drawn. */
  lemma {:induction false} CardsDependOnTableKeys(table: seq<AnalysisType>, r1: map<string, string>, r2: map<string, string>)
    requires forall t :: t in table ==> (t.key in r1 <==> t.key in r2) && (t.key in r1 ==> r1[t.key] == r2[t.key])
    ensures Cards(table, r1) == Cards(table, r2)
  {
    if table != [] {
      assert table[0] in table;
      assert forall t :: t in table[1..] ==> t in table;
      CardsDependOnTableKeys(table[1..], r1, r2);
    }
  }
}
