/** The multi-line fields of the certificate form and the id list of the link form. */
module FormLines {
  import opened Text

  // ---------- splitLines ----------

  /** The distinct non-empty trimmed lines, each where it occurs first. */
  function Collect(lines: seq<string>): seq<string> {
    if lines == [] then []
    else
      var before, item := Collect(lines[..|lines| - 1]), Trim(lines[|lines| - 1]);
      if item == "" || item in before then before else before + [item]
  }

  function Lines(value: string): seq<string> {
    Collect(Split(value, '\n'))
  }

  method SplitLines(value: string) returns (output: seq<string>)
    ensures output == Lines(value)
  {
    var seen: map<string, bool> := map[];
    output := [];
    var lines := Split(value, '\n');
    for i := 0 to |lines|
      invariant output == Collect(lines[..i])
      invariant forall item :: item in seen <==> item in output
    {
      assert lines[..i + 1][..i] == lines[..i];
      var item := Trim(lines[i]);
      if item == "" {
        continue;
      }
      if item in seen {
        continue;
      }
      seen := seen[item := true];
      output := output + [item];
    }
    assert lines[..|lines|] == lines;
  }

  /** What a list field holds: trimmed, non-empty, newline-free, distinct items. */
  ghost predicate IsItemList(items: seq<string>) {
    && (forall i :: 0 <= i < |items| ==> Trimmed(items[i]) && items[i] != "" && '\n' !in items[i])
    && (forall i, j :: 0 <= i < j < |items| ==> items[i] != items[j])
  }

  lemma {:induction false} CollectIsItemList(lines: seq<string>)
    requires FreeOf('\n', lines)
    ensures IsItemList(Collect(lines))
  {
    hide Trim;
    if lines != [] {
      var n := |lines| - 1;
      CollectIsItemList(lines[..n]);
      TrimIsTrimmed(lines[n]);
    }
  }

  lemma LinesAreItems(value: string)
    ensures IsItemList(Lines(value))
  {
    SplitFreeOf(value, '\n');
    CollectIsItemList(Split(value, '\n'));
  }

  /** Nothing is lost or made up: an item is there exactly when some line is it with white space around. */
  lemma {:induction false} CollectComplete(lines: seq<string>, item: string)
    ensures item in Collect(lines) <==> item != "" && exists i :: 0 <= i < |lines| && Trim(lines[i]) == item
  {
    hide Trim;
    if lines != [] {
      var n := |lines| - 1;
      CollectComplete(lines[..n], item);
      if i :| 0 <= i < n && Trim(lines[i]) == item {
        assert Trim(lines[..n][i]) == item;
      }
      if i :| 0 <= i < n && Trim(lines[..n][i]) == item {
        assert Trim(lines[i]) == item;
      }
    }
  }

  /** The first line that is the item. */
  ghost predicate FirstAt(lines: seq<string>, item: string, i: nat) {
    i < |lines| && Trim(lines[i]) == item && forall j :: 0 <= j < i ==> Trim(lines[j]) != item
  }

  /** Items keep the order of their first lines. */
  lemma {:induction false} FirstOccurrenceOrder(lines: seq<string>, a: nat, b: nat, i: nat, j: nat)
    requires a < b < |Collect(lines)| && FirstAt(lines, Collect(lines)[a], i) && FirstAt(lines, Collect(lines)[b], j)
    ensures i < j
  {
    hide Trim;
    var n := |lines| - 1;
    var before := Collect(lines[..n]);
    if b < |before| {
      CollectComplete(lines[..n], before[a]);
      CollectComplete(lines[..n], before[b]);
      assert i < n && j < n;
      assert FirstAt(lines[..n], before[a], i) && FirstAt(lines[..n], before[b], j);
      FirstOccurrenceOrder(lines[..n], a, b, i, j);
    } else {
      CollectComplete(lines[..n], before[a]);
      CollectComplete(lines[..n], Collect(lines)[b]);
      assert i < n;
      assert j >= n;
    }
  }

  /** The definition, one step. */
  lemma CollectLast(lines: seq<string>)
    ensures lines == [] ==> Collect(lines) == []
    ensures lines != [] ==>
      var before, item := Collect(lines[..|lines| - 1]), Trim(lines[|lines| - 1]);
      item != "" && item !in before ==> Collect(lines) == before + [item]
  {
    hide Trim;
  }

  lemma {:induction false} CollectOfItems(items: seq<string>)
    requires IsItemList(items)
    ensures Collect(items) == items
  {
    hide Trim, Trimmed, Collect;
    if items == [] {
      CollectLast(items);
    } else {
      var n := |items| - 1;
      CollectOfItems(items[..n]);
      TrimOfTrimmed(items[n]);
      assert items[n] !in items[..n];
      CollectLast(items);
      assert items == items[..n] + [items[n]];
    }
  }

  /** Writing a list into the form and reading it back gives the list. */
  lemma LinesOfJoin(items: seq<string>)
    requires IsItemList(items)
    ensures Lines(Join(items, '\n')) == items
  {
    hide Trim;
    if items == [] {
      assert Collect([""]) == [] by { assert [""][..0] == []; assert Trim("") == "" by { TrimOfTrimmed(""); } }
    } else {
      assert FreeOf('\n', items);
      SplitOfJoin(items, '\n');
      CollectOfItems(items);
    }
  }

  // ---------- uniqueSortedIDs ----------

  ghost predicate StrictlyIncreasing(s: seq<int>) {
    forall i, j :: 0 <= i < j < |s| ==> s[i] < s[j]
  }

  ghost predicate Distinct(s: seq<int>) {
    forall i, j :: 0 <= i < j < |s| ==> s[i] != s[j]
  }

  /** The request's ids as the program uses them: each positive id once, in increasing order. */
  method UniqueSortedIds(ids: seq<int>) returns (result: seq<int>)
    ensures StrictlyIncreasing(result)
    ensures forall id :: id in result <==> id in ids && id > 0
  {
    var seen: map<int, bool> := map[];
    result := [];
    for i := 0 to |ids|
      invariant Distinct(result)
      invariant forall id :: id in result <==> id in ids[..i] && id > 0
      invariant forall id :: id in seen <==> id in result
    {
      if ids[i] <= 0 {
        continue;
      }
      if ids[i] in seen {
        continue;
      }
      seen := seen[ids[i] := true];
      result := result + [ids[i]];
    }
    assert ids[..|ids|] == ids;
    result := Sort(result);
  }

  lemma InsertInOrder(r: seq<int>, k: nat, x: int)
    requires StrictlyIncreasing(r) && k <= |r| && x !in r
    requires (forall j :: 0 <= j < k ==> r[j] < x) && (k < |r| ==> r[k] >= x)
    ensures StrictlyIncreasing(r[..k] + [x] + r[k..])
    ensures forall y :: y in r[..k] + [x] + r[k..] <==> y in r || y == x
  {
    assert forall j :: k <= j < |r| ==> r[j] > x;
    assert r == r[..k] + r[k..];
  }

  /** sort.Slice on distinct numbers. */
  method Sort(s: seq<int>) returns (r: seq<int>)
    requires Distinct(s)
    ensures StrictlyIncreasing(r)
    ensures forall x :: x in r <==> x in s
  {
    r := [];
    for i := 0 to |s|
      invariant StrictlyIncreasing(r)
      invariant forall x :: x in r <==> x in s[..i]
    {
      var k := 0;
      while k < |r| && r[k] < s[i]
        invariant 0 <= k <= |r|
        invariant forall j :: 0 <= j < k ==> r[j] < s[i]
      {
        k := k + 1;
      }
      assert s[i] !in s[..i];
      InsertInOrder(r, k, s[i]);
      assert s[..i + 1] == s[..i] + [s[i]];
      r := r[..k] + [s[i]] + r[k..];
    }
    assert s[..|s|] == s;
  }

  lemma FirstIsIn(s: seq<int>)
    ensures s != [] ==> s[0] in s
  {
  }

  /** A strictly increasing list is determined by its elements: order and duplicates of the request are forgotten. */
  lemma {:induction false} SortedIsUnique(a: seq<int>, b: seq<int>)
    requires StrictlyIncreasing(a) && StrictlyIncreasing(b) && forall x :: x in a <==> x in b
    ensures a == b
  {
    if a != [] {
      var m, n := |a| - 1, |b| - 1;
      assert a[m] in b && (b == [] || b[n] in a);
      assert a[m] == b[n];
      forall x
        ensures x in a[..m] <==> x in b[..n]
      {
        assert x in a[..m] <==> x in a && x != a[m];
        assert x in b[..n] <==> x in b && x != b[n];
      }
      SortedIsUnique(a[..m], b[..n]);
    } else {
      FirstIsIn(b);
    }
  }
}
