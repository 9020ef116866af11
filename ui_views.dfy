/** The destination listing and creation form of the Django user interface. The database is
    a parameter: the alias rows the listing query delivers, joined with their destination and
    ordered by its description, and the outcome of the creation call. */
module UiViews {
  import opened Wrappers
  import opened Sorting
  import opened Outcomes

  /** One row of the listing query: an alias with the destination it belongs to. */
  datatype AliasRow = AliasRow(name: string, destinationId: nat, url: string, description: string)

  /** What the listing shows for one destination. */
  datatype Entry = Entry(url: string, description: string, aliases: seq<string>)

  /** The destination ids in the order their first alias arrives. */
  function FirstSeen(rows: seq<AliasRow>): (r: seq<nat>)
    ensures |r| <= |rows|
  {
    if rows == [] then []
    else
      var prefix := FirstSeen(rows[..|rows| - 1]);
      var id := rows[|rows| - 1].destinationId;
      if id in prefix then prefix else prefix + [id]
  }

  /** The names of the aliases of destination `id`, in the order they arrive. */
  function NamesOf(rows: seq<AliasRow>, id: nat): (r: seq<string>)
    ensures |r| <= |rows|
  {
    if rows == [] then []
    else
      var last := rows[|rows| - 1];
      NamesOf(rows[..|rows| - 1], id) + (if last.destinationId == id then [last.name] else [])
  }

  /** The mapping built by the scan: a new id gets the url, description and name of its first
      row, a known id collects one more name. */
  function Collected(rows: seq<AliasRow>): map<nat, Entry> {
    if rows == [] then map[]
    else
      var m := Collected(rows[..|rows| - 1]);
      var row := rows[|rows| - 1];
      if row.destinationId in m then
        m[row.destinationId := m[row.destinationId].(aliases := m[row.destinationId].aliases + [row.name])]
      else
        m[row.destinationId := Entry(row.url, row.description, [row.name])]
  }

  /** Each destination's alias list put in alphabetical order. */
  function AliasesSorted(m: map<nat, Entry>): (r: map<nat, Entry>)
    ensures r.Keys == m.Keys
    ensures forall id :: id in m ==> r[id] == SortedEntry(m[id])
  {
    map id | id in m :: SortedEntry(m[id])
  }

  /** An entry with its alias list in alphabetical order. */
  function SortedEntry(e: Entry): Entry {
    e.(aliases := SortBy(e.aliases, LexLe))
  }

  /** The index of the first row of destination `id`. */
  function FirstIndex(rows: seq<AliasRow>, id: nat): (i: nat)
    requires exists k :: 0 <= k < |rows| && rows[k].destinationId == id
    ensures i < |rows| && rows[i].destinationId == id
    ensures forall j :: 0 <= j < i ==> rows[j].destinationId != id
  {
    if rows[0].destinationId == id then 0
    else
      var k :| 0 <= k < |rows| && rows[k].destinationId == id;
      assert rows[1..][k - 1].destinationId == id;
      1 + FirstIndex(rows[1..], id)
  }

  predicate HasRow(rows: seq<AliasRow>, id: nat) {
    exists k :: 0 <= k < |rows| && rows[k].destinationId == id
  }

  predicate Distinct(xs: seq<nat>) {
    forall i, j :: 0 <= i < j < |xs| ==> xs[i] != xs[j]
  }

  lemma PrefixRow(rows: seq<AliasRow>, k: nat)
    requires k < |rows| - 1
    ensures rows[..|rows| - 1][k] == rows[k]
  {
  }

  /** The listed ids are exactly the destinations that have a row, each listed once. */
  lemma {:induction false} FirstSeenIds(rows: seq<AliasRow>)
    ensures Distinct(FirstSeen(rows))
    ensures forall id :: id in FirstSeen(rows) <==> HasRow(rows, id)
  {
    if rows != [] {
      var prefix := rows[..|rows| - 1];
      FirstSeenIds(prefix);
      forall id ensures HasRow(rows, id) <==> HasRow(prefix, id) || rows[|rows| - 1].destinationId == id {
        if HasRow(rows, id) && rows[|rows| - 1].destinationId != id {
          var k :| 0 <= k < |rows| && rows[k].destinationId == id;
          PrefixRow(rows, k);
        }
        if HasRow(prefix, id) {
          var k :| 0 <= k < |prefix| && prefix[k].destinationId == id;
          PrefixRow(rows, k);
        }
      }
    }
  }

  /** The scan keys its mapping by the first-seen ids, and each entry holds the url and
      description of the destination's first row and the names of all its rows, in order. */
  lemma {:induction false} CollectedEntries(rows: seq<AliasRow>)
    ensures Collected(rows).Keys == set id | id in FirstSeen(rows)
    ensures forall id :: id in Collected(rows) ==>
      && HasRow(rows, id)
      && Collected(rows)[id].url == rows[FirstIndex(rows, id)].url
      && Collected(rows)[id].description == rows[FirstIndex(rows, id)].description
      && Collected(rows)[id].aliases == NamesOf(rows, id)
  {
    if rows != [] {
      var prefix := rows[..|rows| - 1];
      var last := rows[|rows| - 1];
      CollectedEntries(prefix);
      FirstSeenIds(prefix);
      FirstSeenIds(rows);
      forall id | id in Collected(rows)
        ensures HasRow(rows, id)
        ensures Collected(rows)[id].url == rows[FirstIndex(rows, id)].url
        ensures Collected(rows)[id].description == rows[FirstIndex(rows, id)].description
        ensures Collected(rows)[id].aliases == NamesOf(rows, id)
      {
        if id in Collected(prefix) {
          var i := FirstIndex(prefix, id);
          FirstIndexPrefix(rows, id);
        } else {
          assert id == last.destinationId;
          assert !HasRow(prefix, id);
          assert NamesOf(prefix, id) == [] by {
            NoRowNoNames(prefix, id);
          }
          FirstIndexLast(rows, id);
        }
      }
    }
  }

  lemma FirstIndexPrefix(rows: seq<AliasRow>, id: nat)
    requires rows != [] && HasRow(rows[..|rows| - 1], id)
    ensures HasRow(rows, id) && FirstIndex(rows, id) == FirstIndex(rows[..|rows| - 1], id)
  {
    var prefix := rows[..|rows| - 1];
    var i := FirstIndex(prefix, id);
    PrefixRow(rows, i);
    var j := FirstIndex(rows, id);
    if j < i {
      PrefixRow(rows, j);
    }
  }

  lemma FirstIndexLast(rows: seq<AliasRow>, id: nat)
    requires rows != [] && rows[|rows| - 1].destinationId == id && !HasRow(rows[..|rows| - 1], id)
    ensures HasRow(rows, id) && FirstIndex(rows, id) == |rows| - 1
  {
    var j := FirstIndex(rows, id);
    if j < |rows| - 1 {
      PrefixRow(rows, j);
    }
  }

  lemma {:induction false} NoRowNoNames(rows: seq<AliasRow>, id: nat)
    requires !HasRow(rows, id)
    ensures NamesOf(rows, id) == []
  {
    if rows != [] {
      var prefix := rows[..|rows| - 1];
      if HasRow(prefix, id) {
        var k :| 0 <= k < |prefix| && prefix[k].destinationId == id;
        PrefixRow(rows, k);
      }
      NoRowNoNames(prefix, id);
    }
  }

  /** A name is listed under a destination exactly when one of that destination's rows
      carries it: it goes to its own destination and to no other. */
  lemma {:induction false} NamesOfOwn(rows: seq<AliasRow>, id: nat, name: string)
    ensures name in NamesOf(rows, id) <==>
      exists k :: 0 <= k < |rows| && rows[k].destinationId == id && rows[k].name == name
  {
    if rows != [] {
      var prefix := rows[..|rows| - 1];
      NamesOfOwn(prefix, id, name);
      if exists k :: 0 <= k < |rows| && rows[k].destinationId == id && rows[k].name == name {
        var k :| 0 <= k < |rows| && rows[k].destinationId == id && rows[k].name == name;
        if k < |rows| - 1 {
          PrefixRow(rows, k);
        }
      }
      if exists k :: 0 <= k < |prefix| && prefix[k].destinationId == id && prefix[k].name == name {
        var k :| 0 <= k < |prefix| && prefix[k].destinationId == id && prefix[k].name == name;
        PrefixRow(rows, k);
      }
    }
  }

  /** The ids are listed in the order of their first rows. */
  lemma {:induction false} FirstSeenOrder(rows: seq<AliasRow>, i: nat, j: nat)
    requires i < j < |FirstSeen(rows)|
    ensures HasRow(rows, FirstSeen(rows)[i]) && HasRow(rows, FirstSeen(rows)[j])
    ensures FirstIndex(rows, FirstSeen(rows)[i]) < FirstIndex(rows, FirstSeen(rows)[j])
  {
    var prefix := rows[..|rows| - 1];
    var keys := FirstSeen(rows);
    FirstSeenIds(rows);
    FirstSeenIds(prefix);
    assert keys[i] in keys && keys[j] in keys;
    if j < |FirstSeen(prefix)| {
      FirstSeenOrder(prefix, i, j);
      FirstIndexPrefix(rows, keys[i]);
      FirstIndexPrefix(rows, keys[j]);
    } else {
      assert keys[i] in FirstSeen(prefix);
      FirstIndexPrefix(rows, keys[i]);
      FirstIndexLast(rows, keys[j]);
    }
  }

  predicate ByDescription(rows: seq<AliasRow>) {
    forall i, j :: 0 <= i < j < |rows| ==> LexLe(rows[i].description, rows[j].description)
  }

  /** Rows ordered by description give the destinations in description order. */
  lemma ListedByDescription(rows: seq<AliasRow>, i: nat, j: nat)
    requires ByDescription(rows)
    requires i < j < |FirstSeen(rows)|
    ensures var keys := FirstSeen(rows); var m := Collected(rows);
      keys[i] in m && keys[j] in m && LexLe(m[keys[i]].description, m[keys[j]].description)
  {
    var keys := FirstSeen(rows);
    FirstSeenOrder(rows, i, j);
    CollectedEntries(rows);
  }

  /** Every alias list in the result is in alphabetical order and holds the same names as
      before the sort. */
  lemma SortedLists(m: map<nat, Entry>, id: nat)
    requires id in m
    ensures SortedBy(AliasesSorted(m)[id].aliases, LexLe)
    ensures multiset(AliasesSorted(m)[id].aliases) == multiset(m[id].aliases)
    ensures AliasesSorted(m)[id].url == m[id].url && AliasesSorted(m)[id].description == m[id].description
  {
    LexOrderIsTotalPreorder();
    SortBySorted(m[id].aliases, LexLe);
  }

  /** The first loop of `gen_destinations_with_aliases`: the scan over the rows. */
  method ScanRows(rows: seq<AliasRow>) returns (keys: seq<nat>, destinations: map<nat, Entry>)
    ensures keys == FirstSeen(rows)
    ensures destinations == Collected(rows)
  {
    keys := [];
    destinations := map[];
    var i := 0;
    while i < |rows|
      invariant i <= |rows|
      invariant keys == FirstSeen(rows[..i])
      invariant destinations == Collected(rows[..i])
      invariant destinations.Keys == set id | id in keys
    {
      var row := rows[i];
      assert rows[..i + 1][..i] == rows[..i];
      if row.destinationId !in destinations {
        destinations := destinations[row.destinationId := Entry(row.url, row.description, [row.name])];
        keys := keys + [row.destinationId];
      } else {
        var entry := destinations[row.destinationId];
        destinations := destinations[row.destinationId := entry.(aliases := entry.aliases + [row.name])];
      }
      i := i + 1;
    }
    assert rows[..i] == rows;
  }

  /** The second loop: each destination's alias list replaced by its sorted copy. */
  method SortAliasLists(keys: seq<nat>, collected: map<nat, Entry>) returns (destinations: map<nat, Entry>)
    requires Distinct(keys)
    requires forall id :: id in collected <==> id in keys
    ensures destinations == AliasesSorted(collected)
  {
    destinations := collected;
    var j := 0;
    while j < |keys|
      invariant j <= |keys|
      invariant destinations.Keys == collected.Keys
      invariant forall k :: 0 <= k < j ==> destinations[keys[k]] == SortedEntry(collected[keys[k]])
      invariant forall k :: j <= k < |keys| ==> destinations[keys[k]] == collected[keys[k]]
    {
      var id := keys[j];
      assert id in collected;
      var entry := destinations[id];
      assert forall k :: 0 <= k < |keys| && k != j ==> keys[k] != id;
      destinations := destinations[id := SortedEntry(entry)];
      j := j + 1;
    }
    forall id | id in collected ensures destinations[id] == SortedEntry(collected[id]) {
      var k :| 0 <= k < |keys| && keys[k] == id;
    }
  }

  /** `gen_destinations_with_aliases`: scans the rows, then sorts each alias list. `failed`
      says that a `DatabaseError` ended the scan after `rows`: the error is logged and the
      mapping so far, its lists unsorted, is returned. The mapping is an ordered one: `keys`
      is its order. */
  method GenDestinationsWithAliases(rows: seq<AliasRow>, failed: bool)
    returns (keys: seq<nat>, destinations: map<nat, Entry>)
    ensures keys == FirstSeen(rows)
    ensures destinations == if failed then Collected(rows) else AliasesSorted(Collected(rows))
  {
    keys, destinations := ScanRows(rows);
    if !failed {
      FirstSeenIds(rows);
      CollectedEntries(rows);
      destinations := SortAliasLists(keys, destinations);
    }
  }

  /** The cleaned fields of the creation form. */
  datatype NewDestinationForm = NewDestinationForm(url: string, description: string, aliases: seq<string>, isFallback: bool)

  /** The arguments `create_with_aliases` is called with. */
  datatype CreateCall = CreateCall(url: string, description: string, aliases: seq<string>,
                                   isFallback: bool, isDefaultFallback: bool)

  /** `form_valid`: the call it makes, and the response given the call's outcome. */
  function FormValid(form: NewDestinationForm, created: Result<()>): (r: (CreateCall, Outcome))
    ensures r.0 == CreateCall(form.url, form.description, form.aliases, form.isFallback, false)
    ensures r.1 == ListRedirect <==> created.Ok? || created.error.kind in {DatabaseError, ValueError}
    ensures r.1 != ListRedirect ==> r.1 == ServerError
  {
    var call := CreateCall(form.url, form.description, form.aliases, form.isFallback, false);
    if created.Ok? || created.error.kind == DatabaseError || created.error.kind == ValueError then
      (call, ListRedirect)
    else
      (call, ServerError)
  }
}
