/**
 * The ExemptSubs cell of a ledger row: a comma-separated set of lowercase sub
 * names that apply_exemption parses, extends with one sub, and writes back
 * sorted and joined with ", ".
 */
module ExemptSubs {
  import opened Text

  /** One entry as apply_exemption keeps it: nonempty, lowercase, no comma, no whitespace at either end. */
  predicate IsEntry(x: string) {
    x != [] && !IsSpace(x[0]) && !IsSpace(x[|x| - 1]) && ',' !in x && NoUpper(x)
  }

  function Elems(xs: seq<string>): set<string> {
    set x | x in xs
  }

  lemma ElemsCons(h: string, t: seq<string>)
    ensures Elems([h] + t) == {h} + Elems(t)
  {
    forall y ensures y in Elems([h] + t) <==> y in {h} + Elems(t) {
      if y in Elems([h] + t) {
        var k :| 0 <= k < |[h] + t| && ([h] + t)[k] == y;
        if k > 0 { assert t[k - 1] == y; }
      }
      if y in Elems(t) {
        var k :| 0 <= k < |t| && t[k] == y;
        assert ([h] + t)[k + 1] == y;
      }
    }
  }

  /** `p.strip() for p in parts if p.strip()`, in the order of parts. */
  function Keep(parts: seq<string>): seq<string>
  {
    if parts == [] then []
    else if Strip(parts[0]) == "" then Keep(parts[1..])
    else [Strip(parts[0])] + Keep(parts[1..])
  }

  /** The entries of a cell, in written order: the lowercased cell split on ',', stripped, blanks dropped. */
  function Entries(cell: string): seq<string> {
    Keep(SplitOn(Lower(cell), ','))
  }

  /** The Python set `parts` that apply_exemption builds from a cell. */
  function EntrySet(cell: string): set<string> {
    Elems(Entries(cell))
  }

  lemma {:induction false} KeepYieldsEntries(parts: seq<string>)
    requires forall i :: 0 <= i < |parts| ==> ',' !in parts[i] && NoUpper(parts[i])
    ensures forall x :: x in Keep(parts) ==> IsEntry(x)
  {
    if parts != [] {
      KeepYieldsEntries(parts[1..]);
      var p := parts[0];
      StripShape(p);
      assert ',' !in Strip(p);
      assert NoUpper(Strip(p));
    }
  }

  /** Every entry read from any cell is well formed. */
  lemma EntriesAreEntries(cell: string)
    ensures forall x :: x in Entries(cell) ==> IsEntry(x)
  {
    var parts := SplitOn(Lower(cell), ',');
    SplitOnChars(Lower(cell), ',');
    LowerHasNoUpper(cell);
    forall i | 0 <= i < |parts| ensures NoUpper(parts[i]) {
      forall c | c in parts[i] ensures !IsUpper(c) {
        assert c in Lower(cell);
      }
    }
    KeepYieldsEntries(parts);
  }

  predicate StrictlySorted(xs: seq<string>) {
    forall i, j :: 0 <= i < j < |xs| ==> Below(xs[i], xs[j])
  }

  /** Adds x to a strictly sorted list unless it is already there. */
  function InsertEntry(x: string, xs: seq<string>): seq<string>
  {
    if xs == [] then [x]
    else if x == xs[0] then xs
    else if Below(x, xs[0]) then [x] + xs
    else [xs[0]] + InsertEntry(x, xs[1..])
  }

  lemma {:induction false} InsertEntryKeepsOrder(x: string, xs: seq<string>)
    requires StrictlySorted(xs)
    ensures StrictlySorted(InsertEntry(x, xs))
    ensures Elems(InsertEntry(x, xs)) == Elems(xs) + {x}
  {
    if xs == [] {
    } else if x == xs[0] {
    } else if Below(x, xs[0]) {
      forall y | y in Elems(xs) ensures Below(x, y) {
        var k :| 0 <= k < |xs| && xs[k] == y;
        if k > 0 { BelowTransitive(x, xs[0], y); }
      }
      PrependSmallest(x, xs);
      ElemsCons(x, xs);
    } else {
      BelowTotal(x, xs[0]);
      InsertEntryKeepsOrder(x, xs[1..]);
      var tail := InsertEntry(x, xs[1..]);
      assert xs == [xs[0]] + xs[1..];
      forall y | y in Elems(tail) ensures Below(xs[0], y) {
        if y != x {
          var k :| 0 <= k < |xs[1..]| && xs[1..][k] == y;
          assert xs[k + 1] == y;
        }
      }
      PrependSmallest(xs[0], tail);
      ElemsCons(xs[0], tail);
      ElemsCons(xs[0], xs[1..]);
    }
  }

  /** Putting an element below everything in front of a strictly sorted list keeps it strictly sorted. */
  lemma PrependSmallest(h: string, tail: seq<string>)
    requires StrictlySorted(tail)
    requires forall y :: y in Elems(tail) ==> Below(h, y)
    ensures StrictlySorted([h] + tail)
  {
    var r := [h] + tail;
    forall i, j | 0 <= i < j < |r| ensures Below(r[i], r[j]) {
      assert r[j] == tail[j - 1] && tail[j - 1] in Elems(tail);
      if i > 0 {
        assert r[i] == tail[i - 1];
      }
    }
  }

  /** `sorted(set(xs))`: the distinct elements of xs in ascending order. */
  function SortedDistinct(xs: seq<string>): seq<string>
  {
    if xs == [] then [] else InsertEntry(xs[0], SortedDistinct(xs[1..]))
  }

  /** sorted(set(xs)) lists each element of xs once, in strictly ascending order, and nothing else. */
  lemma {:induction false} SortedDistinctSpec(xs: seq<string>)
    ensures StrictlySorted(SortedDistinct(xs))
    ensures Elems(SortedDistinct(xs)) == Elems(xs)
  {
    if xs != [] {
      SortedDistinctSpec(xs[1..]);
      InsertEntryKeepsOrder(xs[0], SortedDistinct(xs[1..]));
      assert xs == [xs[0]] + xs[1..];
      assert Elems(xs) == {xs[0]} + Elems(xs[1..]);
    }
  }

  /** A strictly sorted list is determined by its elements. */
  lemma {:induction false} SortedListUnique(a: seq<string>, b: seq<string>)
    requires StrictlySorted(a) && StrictlySorted(b) && Elems(a) == Elems(b)
    ensures a == b
  {
    if a == [] {
      assert forall i :: 0 <= i < |b| ==> b[i] in Elems(b);
    } else {
      assert a[0] in Elems(b) && b != [];
      assert b[0] in Elems(a);
      if a[0] != b[0] {
        var j :| 0 <= j < |b| && b[j] == a[0];
        var i :| 0 <= i < |a| && a[i] == b[0];
        assert Below(b[0], a[0]) && Below(a[0], b[0]);
        BelowAsymmetric(a[0], b[0]);
      }
      forall x ensures x in Elems(a[1..]) <==> x in Elems(b[1..]) {
        if x in Elems(a[1..]) {
          var i :| 0 <= i < |a[1..]| && a[1..][i] == x;
          assert Below(a[0], a[i + 1]);
          BelowIrreflexive(x);
          assert x in Elems(b);
        }
        if x in Elems(b[1..]) {
          var i :| 0 <= i < |b[1..]| && b[1..][i] == x;
          assert Below(b[0], b[i + 1]);
          BelowIrreflexive(x);
          assert x in Elems(a);
        }
      }
      SortedListUnique(a[1..], b[1..]);
      assert a == [a[0]] + a[1..] && b == [b[0]] + b[1..];
    }
  }

  /** The list apply_exemption writes: the old entries plus the lowercased sub, sorted, no repeats. */
  function MergedList(cell: string, sub: string): seq<string> {
    SortedDistinct(Entries(cell) + [Lower(sub)])
  }

  /** The new ExemptSubs cell: `', '.join(sorted(parts))` after `parts.add(modsub.lower())`. */
  function MergeCell(cell: string, sub: string): string {
    Join(MergedList(cell, sub), ", ")
  }

  /**
   * What is written holds each old entry and the lowercased sub exactly once, in
   * ascending order, and no blank entry unless the sub itself is blank.
   */
  lemma MergedListSpec(cell: string, sub: string)
    ensures StrictlySorted(MergedList(cell, sub))
    ensures Elems(MergedList(cell, sub)) == EntrySet(cell) + {Lower(sub)}
    ensures forall x :: x in MergedList(cell, sub) && x != Lower(sub) ==> IsEntry(x)
  {
    var xs := Entries(cell) + [Lower(sub)];
    SortedDistinctSpec(xs);
    EntriesAreEntries(cell);
    assert Elems(xs) == EntrySet(cell) + {Lower(sub)};
    forall x | x in MergedList(cell, sub) && x != Lower(sub) ensures IsEntry(x) {
      assert x in Elems(MergedList(cell, sub));
      assert x in Entries(cell);
    }
  }

  /** Adding a comma-free, non-space prefix to a string extends only its first piece. */
  lemma {:induction false} SplitOnPrefix(a: string, t: string, sep: char)
    requires sep !in a
    ensures SplitOn(a + t, sep) == [a + SplitOn(t, sep)[0]] + SplitOn(t, sep)[1..]
    decreases |a|
  {
    if a != [] {
      SplitOnPrefix(a[1..], t, sep);
      var pieces := SplitOn(t, sep);
      assert (a + t)[1..] == a[1..] + t;
      assert (a + t)[0] == a[0];
      var rest := SplitOn(a[1..] + t, sep);
      assert rest == [a[1..] + pieces[0]] + pieces[1..];
      assert rest[0] == a[1..] + pieces[0];
      assert rest[1..] == pieces[1..];
      assert SplitOn(a + t, sep) == [[a[0]] + rest[0]] + rest[1..];
      assert [a[0]] + (a[1..] + pieces[0]) == a + pieces[0];
    } else {
      assert a + t == t;
      var pieces := SplitOn(t, sep);
      assert a + pieces[0] == pieces[0];
      assert pieces == [pieces[0]] + pieces[1..];
    }
  }

  /** The pieces `', '.join` leaves after the first one: each entry behind one space. */
  function Spaced(xs: seq<string>): seq<string> {
    if xs == [] then [] else [" " + xs[0]] + Spaced(xs[1..])
  }

  lemma {:induction false} SplitOfJoin(xs: seq<string>)
    requires |xs| >= 1
    requires forall x :: x in xs ==> ',' !in x
    ensures SplitOn(Join(xs, ", "), ',') == [xs[0]] + Spaced(xs[1..])
    decreases |xs|
  {
    if |xs| == 1 {
      SplitOnPrefix(xs[0], "", ',');
      assert xs[0] + "" == xs[0];
    } else {
      var rest := Join(xs[1..], ", ");
      assert Join(xs, ", ") == xs[0] + ([','] + (" " + rest));
      SplitOnPrefix(xs[0], [','] + (" " + rest), ',');
      assert ([','] + (" " + rest))[1..] == " " + rest;
      SplitOnPrefix(" ", rest, ',');
      SplitOfJoin(xs[1..]);
      assert xs[0] + "" == xs[0];
      assert Spaced(xs[1..]) == [" " + xs[1]] + Spaced(xs[2..]);
      assert xs[1..][1..] == xs[2..];
    }
  }

  lemma StripSpaced(x: string)
    requires IsEntry(x)
    ensures Strip(" " + x) == x
  {
    assert (" " + x)[1..] == x;
    assert TrimStart(" " + x) == TrimStart(x) == x;
  }

  lemma KeepCons(p: string, rest: seq<string>)
    requires Strip(p) != ""
    ensures Keep([p] + rest) == [Strip(p)] + Keep(rest)
  {
    assert ([p] + rest)[1..] == rest;
  }

  /** Entries behind one space each are read back, stripped, as the entries. */
  lemma {:induction false} KeepSpaced(xs: seq<string>)
    requires forall i :: 0 <= i < |xs| ==> xs[i] != "" && Strip(" " + xs[i]) == xs[i]
    ensures Keep(Spaced(xs)) == xs
  {
    if xs != [] {
      var x, tail := xs[0], xs[1..];
      assert forall i :: 0 <= i < |tail| ==> tail[i] == xs[i + 1];
      KeepSpaced(tail);
      assert Spaced(xs) == [" " + x] + Spaced(tail);
      KeepCons(" " + x, Spaced(tail));
      assert xs == [x] + tail;
    }
  }

  lemma {:induction false} LowerOfJoin(xs: seq<string>)
    requires forall x :: x in xs ==> NoUpper(x)
    ensures Lower(Join(xs, ", ")) == Join(xs, ", ")
    decreases |xs|
  {
    if |xs| == 1 {
      LowerOfNoUpper(xs[0]);
    } else if |xs| > 1 {
      LowerOfJoin(xs[1..]);
      LowerOfNoUpper(xs[0]);
      LowerAppend(xs[0] + ", ", Join(xs[1..], ", "));
      LowerAppend(xs[0], ", ");
    }
  }

  /** Reading back a cell written from well-formed entries gives exactly those entries. */
  lemma EntriesOfJoin(xs: seq<string>)
    requires |xs| >= 1
    requires forall x :: x in xs ==> IsEntry(x)
    ensures Entries(Join(xs, ", ")) == xs
  {
    LowerOfJoin(xs);
    SplitOfJoin(xs);
    KeepJoinPieces(xs);
  }

  lemma KeepJoinPieces(xs: seq<string>)
    requires |xs| >= 1
    requires forall x :: x in xs ==> IsEntry(x)
    ensures Keep([xs[0]] + Spaced(xs[1..])) == xs
  {
    assert xs[0] in xs;
    StripOfStripped(xs[0]);
    var tail := xs[1..];
    forall i | 0 <= i < |tail| ensures tail[i] != "" && Strip(" " + tail[i]) == tail[i] {
      assert tail[i] in xs;
      StripSpaced(tail[i]);
    }
    KeepSpaced(tail);
    var parts := [xs[0]] + Spaced(xs[1..]);
    assert parts[1..] == Spaced(xs[1..]);
    assert xs == [xs[0]] + xs[1..];
  }

  /** A sub name apply_exemption can store as one entry: lowercased, it is a well-formed entry. */
  predicate IsSubName(sub: string) {
    IsEntry(Lower(sub))
  }

  /**
   * After apply_exemption, the cell reads back as the old entries plus the sub:
   * it contains the sub, keeps every old entry, and lists no entry twice.
   */
  lemma MergeCellReadsBack(cell: string, sub: string)
    requires IsSubName(sub)
    ensures Entries(MergeCell(cell, sub)) == MergedList(cell, sub)
    ensures StrictlySorted(Entries(MergeCell(cell, sub)))
    ensures EntrySet(MergeCell(cell, sub)) == EntrySet(cell) + {Lower(sub)}
  {
    MergedListSpec(cell, sub);
    var l := MergedList(cell, sub);
    assert Lower(sub) in Elems(l);
    EntriesOfJoin(l);
  }

  /** Exempting the same sub twice leaves the cell as the first exemption wrote it. */
  lemma MergeCellIdempotent(cell: string, sub: string)
    requires IsSubName(sub)
    ensures MergeCell(MergeCell(cell, sub), sub) == MergeCell(cell, sub)
  {
    var once := MergeCell(cell, sub);
    MergeCellReadsBack(cell, sub);
    MergedListSpec(once, sub);
    MergedListSpec(cell, sub);
    SortedListUnique(MergedList(once, sub), MergedList(cell, sub));
  }
}
