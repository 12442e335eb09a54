/** The offline series reconstructor of the Galton board: it turns the
    deletion log `(tick, coordinate)` into uniformly spaced cumulative frames
    in three stages, combine -> accumulate -> fill. Each stage is a method
    that follows plotter.py's loops, proved equal to a specification
    function; the properties of the stages are lemmas about those functions. */
module Plotter {

  datatype Option<T> = None | Some(value: T)

  /** One row of the log once only its first two columns are kept. */
  datatype Entry<T> = Entry(tick: int, coord: T)

  /** A row `[tick] + elems` of the later stages. */
  datatype Row<T> = Row(tick: int, elems: seq<T>)

  // ---------------------------------------------------------------------
  // Stage 1: combine_coordinates
  // ---------------------------------------------------------------------

  /** One step of grouping: an entry with the tick of the open (last) run
      joins it, any other entry opens a new run. */
  function Absorb<T>(groups: seq<Row<T>>, e: Entry<T>): (r: seq<Row<T>>)
    ensures r != []
  {
    if groups != [] && groups[|groups| - 1].tick == e.tick
    then groups[..|groups| - 1] + [Row(e.tick, groups[|groups| - 1].elems + [e.coord])]
    else groups + [Row(e.tick, [e.coord])]
  }

  /** The grouping of the first m entries of `data` into runs of equal
      adjacent tick, built entry by entry from the front. */
  function CombinePrefix<T>(data: seq<Entry<T>>, m: nat): (r: seq<Row<T>>)
    requires m <= |data|
    ensures |r| <= m
    ensures r == [] <==> m == 0
  {
    if m == 0 then [] else Absorb(CombinePrefix(data, m - 1), data[m - 1])
  }

  /** The grouping of all of `data`. */
  function Combine<T>(data: seq<Entry<T>>): (r: seq<Row<T>>)
    ensures |r| <= |data|
    ensures r == [] <==> data == []
  {
    CombinePrefix(data, |data|)
  }

  /** The entries a row stands for: one per element, all with its tick. */
  function Spread<T>(row: Row<T>): seq<Entry<T>>
  {
    seq(|row.elems|, i requires 0 <= i < |row.elems| => Entry(row.tick, row.elems[i]))
  }

  /** The inverse of grouping: every row spread back into entries, in order. */
  function Ungroup<T>(rows: seq<Row<T>>): (r: seq<Entry<T>>)
  {
    if rows == [] then [] else Ungroup(rows[..|rows| - 1]) + Spread(rows[|rows| - 1])
  }

  /** Groups are non-empty and adjacent groups have different ticks. */
  ghost predicate WellGrouped<T>(rows: seq<Row<T>>)
  {
    (forall i :: 0 <= i < |rows| ==> rows[i].elems != []) &&
    (forall i :: 0 < i < |rows| ==> rows[i - 1].tick != rows[i].tick)
  }

  function Coords<T>(data: seq<Entry<T>>): seq<T>
  {
    seq(|data|, i requires 0 <= i < |data| => data[i].coord)
  }

  /** The element lists of `rows`, concatenated in order. */
  function Concat<T>(rows: seq<Row<T>>): seq<T>
  {
    if rows == [] then [] else Concat(rows[..|rows| - 1]) + rows[|rows| - 1].elems
  }

  /** The grouping of a prefix depends on that prefix only. */
  lemma {:induction false} CombinePrefixAgree<T>(a: seq<Entry<T>>, b: seq<Entry<T>>, m: nat)
    requires m <= |a| && m <= |b|
    requires forall k :: 0 <= k < m ==> a[k] == b[k]
    ensures CombinePrefix(a, m) == CombinePrefix(b, m)
  {
    if m > 0 {
      CombinePrefixAgree(a, b, m - 1);
    }
  }

  lemma {:induction false} CombineSnoc<T>(data: seq<Entry<T>>, e: Entry<T>)
    ensures Combine(data + [e]) == Absorb(Combine(data), e)
  {
    CombinePrefixAgree(data + [e], data, |data|);
  }

  /** An entry with the open run's tick joins that run. */
  lemma {:induction false} AbsorbJoins<T>(front: seq<Row<T>>, open: Row<T>, e: Entry<T>)
    requires e.tick == open.tick
    ensures Absorb(front + [open], e) == front + [Row(e.tick, open.elems + [e.coord])]
  {
    assert (front + [open])[..|front|] == front;
  }

  lemma {:induction false} UngroupSnoc<T>(rows: seq<Row<T>>, row: Row<T>)
    ensures Ungroup(rows + [row]) == Ungroup(rows) + Spread(row)
  {
    assert (rows + [row])[..|rows|] == rows;
  }

  /** Growing the last row by one element spreads to one more entry. */
  lemma {:induction false} UngroupGrow<T>(front: seq<Row<T>>, last: Row<T>, e: Entry<T>)
    requires e.tick == last.tick
    ensures Ungroup(front + [Row(e.tick, last.elems + [e.coord])]) == Ungroup(front + [last]) + [e]
  {
    var grown := Row(e.tick, last.elems + [e.coord]);
    UngroupSnoc(front, last);
    UngroupSnoc(front, grown);
    assert Spread(grown) == Spread(last) + [e];
  }

  /** One grouping step spreads back to one more entry. */
  lemma {:induction false} UngroupAbsorb<T>(groups: seq<Row<T>>, e: Entry<T>)
    ensures Ungroup(Absorb(groups, e)) == Ungroup(groups) + [e]
  {
    if groups != [] && groups[|groups| - 1].tick == e.tick {
      assert groups == groups[..|groups| - 1] + [groups[|groups| - 1]];
      UngroupGrow(groups[..|groups| - 1], groups[|groups| - 1], e);
    } else {
      UngroupSnoc(groups, Row(e.tick, [e.coord]));
      assert Spread(Row(e.tick, [e.coord])) == [e];
    }
  }

  /** Spreading the groups back gives the input: no entry is lost, added or
      moved, and every entry sits in a group with its own tick. */
  lemma {:induction false} UngroupCombine<T>(data: seq<Entry<T>>)
    ensures Ungroup(Combine(data)) == data
  {
    if data != [] {
      var init := data[..|data| - 1];
      var e := data[|data| - 1];
      assert data == init + [e];
      UngroupCombine(init);
      CombineSnoc(init, e);
      UngroupAbsorb(Combine(init), e);
    }
  }

  /** Spreading a list of rows and keeping only the coordinates is the
      concatenation of the rows' element lists. */
  lemma {:induction false} CoordsUngroup<T>(rows: seq<Row<T>>)
    ensures Coords(Ungroup(rows)) == Concat(rows)
  {
    if rows != [] {
      var init := rows[..|rows| - 1];
      CoordsUngroup(init);
      var u := Ungroup(init);
      var s := Spread(rows[|rows| - 1]);
      assert Coords(u + s) == Coords(u) + Coords(s);
      assert Coords(s) == rows[|rows| - 1].elems;
    }
  }

  /** The groups' coordinate lists, concatenated, are the input coordinates
      in input order. */
  lemma {:induction false} CombineKeepsCoordinates<T>(data: seq<Entry<T>>)
    ensures Concat(Combine(data)) == Coords(data)
  {
    UngroupCombine(data);
    CoordsUngroup(Combine(data));
  }

  /** One grouping step keeps groups non-empty and adjacent ticks apart. */
  lemma {:induction false} AbsorbWellGrouped<T>(groups: seq<Row<T>>, e: Entry<T>)
    requires WellGrouped(groups)
    ensures WellGrouped(Absorb(groups, e))
  {
    var r := Absorb(groups, e);
    if groups != [] && groups[|groups| - 1].tick == e.tick {
      assert |r| == |groups|;
      assert forall i :: 0 <= i < |r| - 1 ==> r[i] == groups[i];
      assert r[|r| - 1].tick == groups[|groups| - 1].tick;
    } else {
      assert forall i :: 0 <= i < |groups| ==> r[i] == groups[i];
    }
  }

  /** Every group is non-empty and adjacent groups differ in tick. */
  lemma {:induction false} CombineWellGrouped<T>(data: seq<Entry<T>>)
    ensures WellGrouped(Combine(data))
  {
    if data != [] {
      var init := data[..|data| - 1];
      assert data == init + [data[|data| - 1]];
      CombineWellGrouped(init);
      CombineSnoc(init, data[|data| - 1]);
      AbsorbWellGrouped(Combine(init), data[|data| - 1]);
    }
  }

  /** An entry whose tick differs from the open run's opens a new run. */
  lemma AbsorbOpens<T>(groups: seq<Row<T>>, e: Entry<T>)
    requires groups == [] || groups[|groups| - 1].tick != e.tick
    ensures Absorb(groups, e) == groups + [Row(e.tick, [e.coord])]
  {
  }

  /** Taking the last element off the last row takes the last entry off
      the spread. */
  lemma UngroupShrink<T>(rows: seq<Row<T>>)
    requires rows != [] && rows[|rows| - 1].elems != []
    ensures var last := rows[|rows| - 1];
            var n := |last.elems|;
            Ungroup(rows) == Ungroup(rows[..|rows| - 1] + [Row(last.tick, last.elems[..n - 1])])
                             + [Entry(last.tick, last.elems[n - 1])]
  {
    var init := rows[..|rows| - 1];
    var last := rows[|rows| - 1];
    var n := |last.elems|;
    var shorter := Row(last.tick, last.elems[..n - 1]);
    assert last.elems == shorter.elems + [last.elems[n - 1]];
    assert rows == init + [last];
    UngroupGrow(init, shorter, Entry(last.tick, last.elems[n - 1]));
  }

  /** A row with no elements spreads to nothing. */
  lemma UngroupEmptyLast<T>(rows: seq<Row<T>>, row: Row<T>)
    requires row.elems == []
    ensures Ungroup(rows + [row]) == Ungroup(rows)
  {
    UngroupSnoc(rows, row);
  }

  /** Dropping the last row keeps a list well grouped. */
  lemma WellGroupedInit<T>(rows: seq<Row<T>>)
    requires rows != [] && WellGrouped(rows)
    ensures WellGrouped(rows[..|rows| - 1])
  {
  }

  /** Shrinking a well-grouped list's last row to a non-empty list keeps it
      well grouped. */
  lemma WellGroupedShrink<T>(rows: seq<Row<T>>, shorter: Row<T>)
    requires rows != [] && WellGrouped(rows)
    requires shorter.tick == rows[|rows| - 1].tick && shorter.elems != []
    ensures WellGrouped(rows[..|rows| - 1] + [shorter])
  {
    var r := rows[..|rows| - 1] + [shorter];
    assert forall i :: 0 <= i < |rows| - 1 ==> r[i] == rows[i];
  }

  /** A last row of one element opens a run after a grouping that ends with
      a different tick. */
  lemma CombineOpened<T>(pre: seq<Entry<T>>, init: seq<Row<T>>, e: Entry<T>)
    requires init == Combine(pre)
    requires init == [] || init[|init| - 1].tick != e.tick
    ensures init + [Row(e.tick, [e.coord])] == Combine(pre + [e])
  {
    CombineSnoc(pre, e);
    AbsorbOpens(init, e);
  }

  /** A last row one element longer extends the open run. */
  lemma CombineGrown<T>(pre: seq<Entry<T>>, init: seq<Row<T>>, shorter: Row<T>, e: Entry<T>)
    requires init + [shorter] == Combine(pre) && shorter.tick == e.tick
    ensures init + [Row(e.tick, shorter.elems + [e.coord])] == Combine(pre + [e])
  {
    CombineSnoc(pre, e);
    AbsorbJoins(init, shorter, e);
  }

  /** Grouping is determined by its two properties: any well-grouped list of
      rows that spreads back to `data` is `Combine(data)`. So rows are grouped
      by runs of adjacent equal ticks, not by tick value globally. */
  lemma {:induction false} CombineUnique<T>(data: seq<Entry<T>>, rows: seq<Row<T>>)
    requires WellGrouped(rows)
    requires Ungroup(rows) == data
    ensures rows == Combine(data)
    decreases |data|
  {
    if rows != [] {
      var init := rows[..|rows| - 1];
      var last := rows[|rows| - 1];
      assert last.elems != [];
      var n := |last.elems|;
      var e := Entry(last.tick, last.elems[n - 1]);
      var shorter := Row(last.tick, last.elems[..n - 1]);
      UngroupShrink(rows);
      var pre := Ungroup(init + [shorter]);
      assert rows == init + [last];
      if n == 1 {
        UngroupEmptyLast(init, shorter);
        WellGroupedInit(rows);
        CombineUnique(pre, init);
        assert init == [] || init[|init| - 1].tick != e.tick by {
          if init != [] {
            assert rows[|rows| - 2].tick != rows[|rows| - 1].tick;
          }
        }
        CombineOpened(pre, init, e);
        assert last.elems == [e.coord];
      } else {
        WellGroupedShrink(rows, shorter);
        CombineUnique(pre, init + [shorter]);
        CombineGrown(pre, init, shorter, e);
        assert last.elems == shorter.elems + [e.coord];
      }
    }
  }

  /** combine_coordinates: one pass over `data` that keeps the open run's
      tick (none before the first row) and coordinates and closes the run
      whenever the tick changes. */
  method CombineCoordinates<T>(data: seq<Entry<T>>) returns (combined: seq<Row<T>>)
    ensures combined == Combine(data)
  {
    combined := [];
    var currentTimestep: Option<int> := None;
    var currentCoordinates: seq<T> := [];
    for i := 0 to |data|
      invariant currentTimestep.None? <==> i == 0
      invariant currentTimestep.None? ==> currentCoordinates == []
      invariant CombinePrefix(data, i) ==
                  if currentTimestep.None? then combined
                  else combined + [Row(currentTimestep.value, currentCoordinates)]
    {
      var row := data[i];
      if currentTimestep.None? {
        currentTimestep := Some(row.tick);
      }
      if row.tick == currentTimestep.value {
        if i > 0 {
          AbsorbJoins(combined, Row(row.tick, currentCoordinates), row);
        } else {
          assert currentCoordinates + [row.coord] == [row.coord];
        }
        currentCoordinates := currentCoordinates + [row.coord];
      } else {
        assert CombinePrefix(data, i + 1) == Absorb(combined + [Row(currentTimestep.value, currentCoordinates)], row);
        combined := combined + [Row(currentTimestep.value, currentCoordinates)];
        currentTimestep := Some(row.tick);
        currentCoordinates := [row.coord];
      }
    }
    if currentTimestep.Some? {
      combined := combined + [Row(currentTimestep.value, currentCoordinates)];
    }
  }

  // ---------------------------------------------------------------------
  // Stage 2: accumulate_data
  // ---------------------------------------------------------------------

  ghost predicate Distinct<T>(s: seq<T>)
  {
    forall i, j :: 0 <= i < j < |s| ==> s[i] != s[j]
  }

  /** `seen` extended by `x` unless it already holds it. */
  function Include<T(==)>(seen: seq<T>, x: T): (r: seq<T>)
  {
    if x in seen then seen else seen + [x]
  }

  /** `seen` extended, in order of first appearance, by each of the first m
      elements of `xs` that it does not hold yet. */
  function AddNew<T(==)>(seen: seq<T>, xs: seq<T>, m: nat): (r: seq<T>)
    requires m <= |xs|
    ensures seen <= r
  {
    if m == 0 then seen else Include(AddNew(seen, xs, m - 1), xs[m - 1])
  }

  /** AddNew adds exactly the elements of `xs[..m]`. */
  lemma {:induction false} AddNewMembers<T>(seen: seq<T>, xs: seq<T>, m: nat, x: T)
    requires m <= |xs|
    ensures x in AddNew(seen, xs, m) <==> x in seen || x in xs[..m]
  {
    if m > 0 {
      AddNewMembers(seen, xs, m - 1, x);
      assert xs[..m] == xs[..m - 1] + [xs[m - 1]];
    }
  }

  /** AddNew never introduces a duplicate. */
  lemma {:induction false} AddNewDistinct<T>(seen: seq<T>, xs: seq<T>, m: nat)
    requires m <= |xs| && Distinct(seen)
    ensures Distinct(AddNew(seen, xs, m))
  {
    if m > 0 {
      AddNewDistinct(seen, xs, m - 1);
    }
  }

  /** The list of elements seen after the first m rows, in first-seen order. */
  function SeenAfter<T(==)>(rows: seq<Row<T>>, m: nat): seq<T>
    requires m <= |rows|
  {
    if m == 0 then [] else AddNew(SeenAfter(rows, m - 1), rows[m - 1].elems, |rows[m - 1].elems|)
  }

  lemma {:induction false} SeenAfterDistinct<T>(rows: seq<Row<T>>, m: nat)
    requires m <= |rows|
    ensures Distinct(SeenAfter(rows, m))
  {
    if m > 0 {
      SeenAfterDistinct(rows, m - 1);
      AddNewDistinct(SeenAfter(rows, m - 1), rows[m - 1].elems, |rows[m - 1].elems|);
    }
  }

  /** An element has been seen exactly when one of the first m rows holds it. */
  lemma {:induction false} SeenAfterMembers<T>(rows: seq<Row<T>>, m: nat, x: T)
    requires m <= |rows|
    ensures x in SeenAfter(rows, m) <==> exists j :: 0 <= j < m && x in rows[j].elems
  {
    if m > 0 {
      var xs := rows[m - 1].elems;
      SeenAfterMembers(rows, m - 1, x);
      AddNewMembers(SeenAfter(rows, m - 1), xs, |xs|, x);
      assert xs[..|xs|] == xs;
    }
  }

  /** Row i keeps the tick of input row i and holds every element of input
      rows 0..i, each once, in first-seen order. */
  function Accumulate<T(==)>(rows: seq<Row<T>>): (r: seq<Row<T>>)
    ensures |r| == |rows|
  {
    seq(|rows|, i requires 0 <= i < |rows| => Row(rows[i].tick, SeenAfter(rows, i + 1)))
  }

  /** Each accumulated list is duplicate-free and is a prefix of the next
      row's list, so frames never lose an element. */
  lemma {:induction false} AccumulateGrows<T>(rows: seq<Row<T>>, i: nat)
    requires i < |rows|
    ensures Distinct(Accumulate(rows)[i].elems)
    ensures i + 1 < |rows| ==> Accumulate(rows)[i].elems <= Accumulate(rows)[i + 1].elems
  {
    SeenAfterDistinct(rows, i + 1);
  }

  /** An element is in output row i exactly when it occurs in some input
      row j <= i. */
  lemma {:induction false} AccumulateMembers<T>(rows: seq<Row<T>>, i: nat, x: T)
    requires i < |rows|
    ensures x in Accumulate(rows)[i].elems <==> exists j :: 0 <= j <= i && x in rows[j].elems
  {
    SeenAfterMembers(rows, i + 1, x);
  }

  /** The elements of `s` in order, each kept at its first occurrence and
      dropped wherever it occurs again. */
  function Dedup<T(==)>(s: seq<T>): seq<T>
  {
    if s == [] then []
    else Dedup(s[..|s| - 1]) + (if s[|s| - 1] in s[..|s| - 1] then [] else [s[|s| - 1]])
  }

  /** Dropping repeats loses no element. */
  lemma {:induction false} DedupMembers<T>(s: seq<T>, x: T)
    ensures x in Dedup(s) <==> x in s
  {
    if s != [] {
      DedupMembers(s[..|s| - 1], x);
      assert s == s[..|s| - 1] + [s[|s| - 1]];
    }
  }

  /** The inner loop run over the first m elements of `xs`, starting from
      the repeat-free form of `a`, gives the repeat-free form of `a`
      followed by those elements. */
  lemma {:induction false} AddNewDedup<T>(a: seq<T>, xs: seq<T>, m: nat)
    requires m <= |xs|
    ensures AddNew(Dedup(a), xs, m) == Dedup(a + xs[..m])
  {
    if m == 0 {
      assert a + xs[..0] == a;
    } else {
      AddNewDedup(a, xs, m - 1);
      assert a + xs[..m] == (a + xs[..m - 1]) + [xs[m - 1]];
      DedupSnoc(a + xs[..m - 1], xs[m - 1]);
    }
  }

  /** One more element is kept exactly when it is new. */
  lemma DedupSnoc<T>(s: seq<T>, x: T)
    ensures Dedup(s + [x]) == Include(Dedup(s), x)
  {
    assert (s + [x])[..|s|] == s;
    DedupMembers(s, x);
  }

  /** The concatenation of the first m rows' lists ends with row m - 1's. */
  lemma ConcatPrefix<T>(rows: seq<Row<T>>, m: nat)
    requires 0 < m <= |rows|
    ensures Concat(rows[..m]) == Concat(rows[..m - 1]) + rows[m - 1].elems
  {
    assert rows[..m][..m - 1] == rows[..m - 1];
  }

  /** The seen list after m rows is the repeat-free form of those rows'
      elements, concatenated in order. */
  lemma {:induction false} SeenAfterDedup<T>(rows: seq<Row<T>>, m: nat)
    requires m <= |rows|
    ensures SeenAfter(rows, m) == Dedup(Concat(rows[..m]))
  {
    if m == 0 {
      assert rows[..0] == [];
    } else {
      var xs := rows[m - 1].elems;
      var c := Concat(rows[..m - 1]);
      calc {
        SeenAfter(rows, m);
        AddNew(SeenAfter(rows, m - 1), xs, |xs|);
        { SeenAfterDedup(rows, m - 1); }
        AddNew(Dedup(c), xs, |xs|);
        { AddNewDedup(c, xs, |xs|); }
        Dedup(c + xs[..|xs|]);
        { assert xs[..|xs|] == xs; ConcatPrefix(rows, m); }
        Dedup(Concat(rows[..m]));
      }
    }
  }

  /** Output row i keeps input row i's tick and lists the elements of input
      rows 0..i in the order they first occur there, each once. */
  lemma AccumulateFirstSeen<T>(rows: seq<Row<T>>, i: nat)
    requires i < |rows|
    ensures Accumulate(rows)[i] == Row(rows[i].tick, Dedup(Concat(rows[..i + 1])))
  {
    SeenAfterDedup(rows, i + 1);
  }

  /** accumulate_data: one pass that grows `elementsSeen` in place and
      emits a copy of it with every row's tick. */
  method AccumulateData<T(==)>(data: seq<Row<T>>) returns (processed: seq<Row<T>>)
    ensures processed == Accumulate(data)
  {
    processed := [];
    var elementsSeen: seq<T> := [];
    for i := 0 to |data|
      invariant elementsSeen == SeenAfter(data, i)
      invariant processed == Accumulate(data)[..i]
    {
      var currentElements := data[i].elems;
      ghost var before := elementsSeen;
      for j := 0 to |currentElements|
        invariant elementsSeen == AddNew(before, currentElements, j)
      {
        if currentElements[j] !in elementsSeen {
          elementsSeen := elementsSeen + [currentElements[j]];
        }
      }
      AccumulateStep(data, i);
      processed := processed + [Row(data[i].tick, elementsSeen)];
    }
    assert Accumulate(data)[..|data|] == Accumulate(data);
  }

  /** One turn of the outer loop emits the next row of the accumulation. */
  lemma AccumulateStep<T>(data: seq<Row<T>>, i: nat)
    requires i < |data|
    ensures Accumulate(data)[..i + 1]
            == Accumulate(data)[..i] + [Row(data[i].tick, AddNew(SeenAfter(data, i), data[i].elems, |data[i].elems|))]
  {
    assert Accumulate(data)[i] == Row(data[i].tick, SeenAfter(data, i + 1));
  }

  // ---------------------------------------------------------------------
  // Stage 3: fill_missing_timesteps
  // ---------------------------------------------------------------------

  /** How many times one of fill_missing_timesteps' while loops runs: the
      counter starts at `from` and grows by `interval` while it is below `bound`. */
  function Steps(from: int, bound: int, interval: int): (n: nat)
    requires interval > 0
    ensures n == 0 <==> from >= bound
    decreases bound - from
  {
    if from < bound then 1 + Steps(from + interval, bound, interval) else 0
  }

  /** The rows such a loop emits: `Row(t, elems)` for t = from,
      from + interval, from + 2 * interval, ... while t < bound. */
  function Ramp<T>(from: int, bound: int, interval: int, elems: seq<T>): seq<Row<T>>
    requires interval > 0
  {
    seq(Steps(from, bound, interval), k requires 0 <= k => Row(from + k * interval, elems))
  }

  /** Every counter value the loop emits lies in [from, bound). */
  lemma {:induction false} StepsBelow(from: int, bound: int, interval: int, k: nat)
    requires interval > 0 && k < Steps(from, bound, interval)
    ensures from <= from + k * interval < bound
    decreases bound - from
  {
    if k > 0 {
      StepsBelow(from + interval, bound, interval, k - 1);
      assert (k - 1) * interval + interval == k * interval;
    }
  }

  /** Row k of a ramp has tick `from + k * interval`, below `bound`, and the
      ramp's elements. */
  lemma {:induction false} RampAt<T>(from: int, bound: int, interval: int, elems: seq<T>, k: nat)
    requires interval > 0 && k < |Ramp(from, bound, interval, elems)|
    ensures Ramp(from, bound, interval, elems)[k] == Row(from + k * interval, elems)
    ensures from <= from + k * interval < bound
  {
    StepsBelow(from, bound, interval, k);
  }

  /** One turn of the loop: a ramp that has not stopped is its first row
      followed by the ramp from the next counter value. */
  lemma {:induction false} RampStep<T>(from: int, bound: int, interval: int, elems: seq<T>)
    requires interval > 0 && from < bound
    ensures Ramp(from, bound, interval, elems)
            == [Row(from, elems)] + Ramp(from + interval, bound, interval, elems)
  {
    var r := Ramp(from, bound, interval, elems);
    var r' := Ramp(from + interval, bound, interval, elems);
    forall k | 0 <= k < |r'|
      ensures r[k + 1] == r'[k]
    {
      assert from + (k + 1) * interval == (from + interval) + k * interval;
    }
  }

  /** The value the loop counter of that while loop holds once it stops:
      the first point of the progression from `from` that is not below
      `bound`. */
  function RampEnd(from: int, bound: int, interval: int): (t: int)
    requires interval > 0
    ensures t >= bound && t >= from
    ensures t == from || t - interval < bound
    decreases bound - from
  {
    if from < bound then RampEnd(from + interval, bound, interval) else from
  }

  /** The loop stops right after the last row it emitted. */
  lemma {:induction false} RampEndAfterRamp(from: int, bound: int, interval: int)
    requires interval > 0
    ensures RampEnd(from, bound, interval) == from + Steps(from, bound, interval) * interval
    decreases bound - from
  {
    if from < bound {
      RampEndAfterRamp(from + interval, bound, interval);
      var n := Steps(from + interval, bound, interval);
      assert (n + 1) * interval == n * interval + interval;
    }
  }

  /** The rows the gap loop of the `for` loop emits between `data[i]` and
      `data[i + 1]`: the counter restarts at `data[i].tick + interval` and
      `data[i]`'s elements are repeated while it is below `data[i + 1].tick`. */
  function Gap<T>(data: seq<Row<T>>, interval: int, i: nat): seq<Row<T>>
    requires interval > 0 && i + 1 < |data|
  {
    Ramp(data[i].tick + interval, data[i + 1].tick, interval, data[i].elems)
  }

  /** What the emitted rows are once the first m recorded rows have been
      appended, leaving out the leading rows: the first row, then for each
      further row its gap and the row itself. */
  function Body<T>(data: seq<Row<T>>, interval: int, m: nat): (r: seq<Row<T>>)
    requires interval > 0 && 1 <= m <= |data|
    ensures |r| >= m
  {
    if m == 1 then [data[0]] else Body(data, interval, m - 1) + Gap(data, interval, m - 2) + [data[m - 1]]
  }

  /** The loop counter after the first m rows: what the leading loop left
      when m = 1, what the last gap loop left otherwise. */
  function Counter<T>(data: seq<Row<T>>, interval: int, m: nat): (t: int)
    requires interval > 0 && 1 <= m <= |data|
    ensures t >= data[m - 1].tick
  {
    if m == 1 then RampEnd(0, data[0].tick, interval)
    else RampEnd(data[m - 2].tick + interval, data[m - 1].tick, interval)
  }

  /** The rows emitted before the first recorded row: ticks 0, interval, ...
      below it, each holding only `startValue`. */
  function Lead<T>(data: seq<Row<T>>, interval: int, startValue: T): seq<Row<T>>
    requires interval > 0 && data != []
  {
    Ramp(0, data[0].tick, interval, [startValue])
  }

  /** The rows emitted after the last recorded row: none without a final
      timestep; otherwise the last row's elements, repeated from wherever
      the counter was left while the tick is at most the final timestep. */
  function Trail<T>(data: seq<Row<T>>, interval: int, finalTimestep: Option<int>): seq<Row<T>>
    requires interval > 0 && data != []
  {
    if finalTimestep.Some?
    then Ramp(Counter(data, interval, |data|), finalTimestep.value + 1, interval, data[|data| - 1].elems)
    else []
  }

  /** fill_missing_timesteps as a function of its inputs. */
  function Fill<T>(data: seq<Row<T>>, interval: int, startValue: T, finalTimestep: Option<int>): (r: seq<Row<T>>)
    requires interval > 0
    ensures r == [] <==> data == []
  {
    if data == [] then []
    else Lead(data, interval, startValue) + Body(data, interval, |data|) + Trail(data, interval, finalTimestep)
  }

  /** Where Fill places the recorded row `data[i]`. */
  function Position<T>(data: seq<Row<T>>, interval: int, startValue: T, i: nat): nat
    requires interval > 0 && i < |data|
  {
    |Lead(data, interval, startValue)| + |Body(data, interval, i + 1)| - 1
  }

  /** A shorter body is a prefix of a longer one, and strictly shorter. */
  lemma {:induction false} BodyPrefix<T>(data: seq<Row<T>>, interval: int, m: nat, n: nat)
    requires interval > 0 && 1 <= m <= n <= |data|
    ensures Body(data, interval, m) <= Body(data, interval, n)
    ensures m < n ==> |Body(data, interval, m)| < |Body(data, interval, n)|
  {
    if m < n {
      BodyPrefix(data, interval, m, n - 1);
    }
  }

  /** The output past the leading rows is the body, then the trailing rows. */
  lemma {:induction false} FillMiddle<T>(data: seq<Row<T>>, interval: int, startValue: T, finalTimestep: Option<int>, p: nat)
    requires interval > 0 && data != [] && p < |Body(data, interval, |data|)|
    ensures |Lead(data, interval, startValue)| + p < |Fill(data, interval, startValue, finalTimestep)|
    ensures Fill(data, interval, startValue, finalTimestep)[|Lead(data, interval, startValue)| + p]
            == Body(data, interval, |data|)[p]
  {
  }

  /** Appending row i's gap and row i itself extends the body by one row. */
  lemma {:induction false} BodyStep<T>(data: seq<Row<T>>, interval: int, lead: seq<Row<T>>, i: nat)
    requires interval > 0 && 1 <= i < |data|
    ensures lead + Body(data, interval, i) + Gap(data, interval, i - 1) + [data[i]]
            == lead + Body(data, interval, i + 1)
  {
  }

  /** The shape shared by the three while loops of fill_missing_timesteps:
      append `Row(counter, elems)` and advance the counter by `interval`
      while the counter is below `bound`. */
  method EmitWhileBelow<T>(filled: seq<Row<T>>, from: int, bound: int, interval: int, elems: seq<T>)
    returns (filled': seq<Row<T>>, counter: int)
    requires interval > 0
    ensures filled' == filled + Ramp(from, bound, interval, elems)
    ensures counter == RampEnd(from, bound, interval)
  {
    filled', counter := filled, from;
    while counter < bound
      invariant filled' + Ramp(counter, bound, interval, elems) == filled + Ramp(from, bound, interval, elems)
      invariant RampEnd(counter, bound, interval) == RampEnd(from, bound, interval)
      decreases bound - counter
    {
      RampStep(counter, bound, interval, elems);
      filled' := filled' + [Row(counter, elems)];
      counter := counter + interval;
    }
  }

  /** fill_missing_timesteps: a leading loop from tick 0, a `for` loop that
      restarts the counter after every recorded row and repeats that row's
      elements below the next one, and, given a final timestep, a trailing
      loop that goes on from wherever the counter was left (`<= final` on
      integer ticks is `< final + 1`). */
  method FillMissingTimesteps<T>(data: seq<Row<T>>, timestepInterval: int, startValue: T, finalTimestep: Option<int>)
    returns (filledData: seq<Row<T>>)
    requires timestepInterval > 0
    ensures filledData == Fill(data, timestepInterval, startValue, finalTimestep)
  {
    if data == [] {
      return [];
    }
    var currentTimestep;
    filledData, currentTimestep := EmitWhileBelow([], 0, data[0].tick, timestepInterval, [startValue]);
    var lastRow := data[0];
    filledData := filledData + [lastRow];
    assert filledData == Lead(data, timestepInterval, startValue) + Body(data, timestepInterval, 1);
    for i := 1 to |data|
      invariant lastRow == data[i - 1]
      invariant filledData == Lead(data, timestepInterval, startValue) + Body(data, timestepInterval, i)
      invariant currentTimestep == Counter(data, timestepInterval, i)
    {
      var currentRow := data[i];
      filledData, currentTimestep :=
        EmitWhileBelow(filledData, lastRow.tick + timestepInterval, currentRow.tick, timestepInterval, lastRow.elems);
      filledData := filledData + [currentRow];
      BodyStep(data, timestepInterval, Lead(data, timestepInterval, startValue), i);
      lastRow := currentRow;
    }
    ghost var trail := Trail(data, timestepInterval, finalTimestep);
    assert Fill(data, timestepInterval, startValue, finalTimestep) == filledData + trail;
    if finalTimestep.Some? {
      filledData, currentTimestep :=
        EmitWhileBelow(filledData, currentTimestep, finalTimestep.value + 1, timestepInterval, lastRow.elems);
    } else {
      assert filledData + trail == filledData;
    }
  }

  /** The body up to row m ends with that row. */
  lemma {:induction false} BodyLast<T>(data: seq<Row<T>>, interval: int, m: nat)
    requires interval > 0 && 1 <= m <= |data|
    ensures Body(data, interval, m)[|Body(data, interval, m)| - 1] == data[m - 1]
  {
  }

  /** The body starts with the first recorded row. */
  lemma {:induction false} BodyFirst<T>(data: seq<Row<T>>, interval: int, m: nat)
    requires interval > 0 && 1 <= m <= |data|
    ensures Body(data, interval, m)[0] == data[0]
  {
    if m > 1 {
      BodyFirst(data, interval, m - 1);
    }
  }

  /** Recorded row i sits in the whole body right where the body up to it
      ends. */
  lemma {:induction false} BodyKeepsRow<T>(data: seq<Row<T>>, interval: int, i: nat)
    requires interval > 0 && i < |data|
    ensures |Body(data, interval, i + 1)| - 1 < |Body(data, interval, |data|)|
    ensures Body(data, interval, |data|)[|Body(data, interval, i + 1)| - 1] == data[i]
  {
    BodyLast(data, interval, i + 1);
    BodyPrefix(data, interval, i + 1, |data|);
  }

  /** Recorded row i appears unchanged in the output, at its position. */
  lemma {:induction false} FillKeepsRow<T>(data: seq<Row<T>>, interval: int, startValue: T, finalTimestep: Option<int>, i: nat)
    requires interval > 0 && i < |data|
    ensures var r := Fill(data, interval, startValue, finalTimestep);
            Position(data, interval, startValue, i) < |r| && r[Position(data, interval, startValue, i)] == data[i]
  {
    BodyKeepsRow(data, interval, i);
    FillMiddle(data, interval, startValue, finalTimestep, |Body(data, interval, i + 1)| - 1);
  }

  /** Positions increase with the row index: recorded rows keep input order. */
  lemma {:induction false} PositionIncreases<T>(data: seq<Row<T>>, interval: int, startValue: T, i: nat, j: nat)
    requires interval > 0 && i < j < |data|
    ensures Position(data, interval, startValue, i) < Position(data, interval, startValue, j)
  {
    BodyPrefix(data, interval, i + 1, j + 1);
  }

  /** Every recorded row appears unchanged in the output, in input order. */
  lemma {:induction false} FillKeepsRows<T>(data: seq<Row<T>>, interval: int, startValue: T, finalTimestep: Option<int>, i: nat, j: nat)
    requires interval > 0 && i < j < |data|
    ensures var r := Fill(data, interval, startValue, finalTimestep);
            Position(data, interval, startValue, i) < Position(data, interval, startValue, j) < |r|
            && r[Position(data, interval, startValue, i)] == data[i]
            && r[Position(data, interval, startValue, j)] == data[j]
  {
    PositionIncreases(data, interval, startValue, i, j);
    FillKeepsRow(data, interval, startValue, finalTimestep, i);
    FillKeepsRow(data, interval, startValue, finalTimestep, j);
  }

  /** The leading rows: ticks 0, interval, 2 * interval, ... strictly below
      the first recorded tick, each holding only `startValue`. */
  lemma {:induction false} FillLeading<T>(data: seq<Row<T>>, interval: int, startValue: T, finalTimestep: Option<int>, k: nat)
    requires interval > 0 && data != []
    requires k < Position(data, interval, startValue, 0)
    ensures var r := Fill(data, interval, startValue, finalTimestep);
            r[k] == Row(k * interval, [startValue]) && k * interval < data[0].tick
  {
    RampAt(0, data[0].tick, interval, [startValue], k);
  }

  /** The leading loop runs until its counter reaches the first recorded
      tick, so no grid tick below it is skipped. */
  lemma FillLeadingReaches<T>(data: seq<Row<T>>, interval: int, startValue: T)
    requires interval > 0 && data != []
    ensures Position(data, interval, startValue, 0) * interval >= data[0].tick
  {
    RampEndAfterRamp(0, data[0].tick, interval);
    assert |Body(data, interval, 1)| == 1;
  }

  /** The next recorded row comes right after the gap. */
  lemma {:induction false} PositionNext<T>(data: seq<Row<T>>, interval: int, startValue: T, i: nat)
    requires interval > 0 && i + 1 < |data|
    ensures Position(data, interval, startValue, i + 1)
            == Position(data, interval, startValue, i) + |Gap(data, interval, i)| + 1
  {
  }

  /** Inside the whole body, the rows after `data[i]` are its gap. */
  lemma {:induction false} BodyGap<T>(data: seq<Row<T>>, interval: int, i: nat, q: nat)
    requires interval > 0 && i + 1 < |data| && q < |Gap(data, interval, i)|
    ensures |Body(data, interval, i + 1)| + q < |Body(data, interval, |data|)|
            && Body(data, interval, |data|)[|Body(data, interval, i + 1)| + q] == Gap(data, interval, i)[q]
  {
    var before := Body(data, interval, i + 1);
    var next := Body(data, interval, i + 2);
    var k := |before| + q;
    assert k < |next| && next[k] == Gap(data, interval, i)[q] by {
      assert next == before + Gap(data, interval, i) + [data[i + 1]];
    }
    assert k < |Body(data, interval, |data|)| && Body(data, interval, |data|)[k] == next[k] by {
      BodyPrefix(data, interval, i + 2, |data|);
    }
  }

  /** Step q of a progression that starts one step late is step q + 1. */
  lemma StepAfter(start: int, interval: int, q: nat)
    ensures start + interval + q * interval == start + (q + 1) * interval
  {
  }

  /** Row q of the gap after recorded row i: tick `data[i].tick + (q + 1) *
      interval`, strictly between the two recorded ticks, and row i's
      elements. */
  lemma {:induction false} GapAt<T>(data: seq<Row<T>>, interval: int, i: nat, q: nat)
    requires interval > 0 && i + 1 < |data| && q < |Gap(data, interval, i)|
    ensures Gap(data, interval, i)[q] == Row(data[i].tick + (q + 1) * interval, data[i].elems)
    ensures data[i].tick < data[i].tick + (q + 1) * interval < data[i + 1].tick
  {
    RampAt(data[i].tick + interval, data[i + 1].tick, interval, data[i].elems, q);
    StepAfter(data[i].tick, interval, q);
  }

  /** The gap rows after recorded row i (by PositionNext, exactly the rows
      before row i + 1): ticks `data[i].tick + interval`, `+ 2 * interval`,
      ... strictly between the two recorded ticks, each copying row i's
      elements. */
  lemma {:induction false} FillGap<T>(data: seq<Row<T>>, interval: int, startValue: T, finalTimestep: Option<int>, i: nat, q: nat)
    requires interval > 0 && i + 1 < |data| && q < |Gap(data, interval, i)|
    ensures var r := Fill(data, interval, startValue, finalTimestep);
            var k := Position(data, interval, startValue, i) + 1 + q;
            k < |r| && r[k] == Row(data[i].tick + (q + 1) * interval, data[i].elems)
            && data[i].tick < r[k].tick < data[i + 1].tick
  {
    BodyGap(data, interval, i, q);
    FillMiddle(data, interval, startValue, finalTimestep, |Body(data, interval, i + 1)| + q);
    GapAt(data, interval, i, q);
  }

  /** The gap rows sit right between `data[i]` and `data[i + 1]`, and the
      gap loop runs until its counter reaches `data[i + 1]`'s tick, so no
      grid tick in between is skipped. */
  lemma FillGapReaches<T>(data: seq<Row<T>>, interval: int, startValue: T, i: nat)
    requires interval > 0 && i + 1 < |data|
    ensures Position(data, interval, startValue, i + 1)
            == Position(data, interval, startValue, i) + |Gap(data, interval, i)| + 1
    ensures data[i].tick + (|Gap(data, interval, i)| + 1) * interval >= data[i + 1].tick
  {
    PositionNext(data, interval, startValue, i);
    RampEndAfterRamp(data[i].tick + interval, data[i + 1].tick, interval);
    var n := |Gap(data, interval, i)|;
    assert (n + 1) * interval == interval + n * interval;
  }

  /** Row k of the trailing rows: it exists only with a final timestep, holds
      the last row's elements, and its tick is k steps past the counter,
      between the last recorded tick and the final timestep. */
  lemma {:induction false} TrailAt<T>(data: seq<Row<T>>, interval: int, finalTimestep: Option<int>, k: nat)
    requires interval > 0 && data != [] && k < |Trail(data, interval, finalTimestep)|
    ensures finalTimestep.Some?
    ensures Trail(data, interval, finalTimestep)[k]
            == Row(Counter(data, interval, |data|) + k * interval, data[|data| - 1].elems)
    ensures data[|data| - 1].tick <= Counter(data, interval, |data|) + k * interval <= finalTimestep.value
  {
    RampAt(Counter(data, interval, |data|), finalTimestep.value + 1, interval, data[|data| - 1].elems, k);
  }

  /** The output is everything up to the last recorded row, then the
      trailing rows. */
  lemma {:induction false} FillEnd<T>(data: seq<Row<T>>, interval: int, startValue: T, finalTimestep: Option<int>)
    requires interval > 0 && data != []
    ensures |Fill(data, interval, startValue, finalTimestep)|
            == Position(data, interval, startValue, |data| - 1) + 1 + |Trail(data, interval, finalTimestep)|
    ensures forall k :: Position(data, interval, startValue, |data| - 1) < k < |Fill(data, interval, startValue, finalTimestep)| ==>
              Fill(data, interval, startValue, finalTimestep)[k]
              == Trail(data, interval, finalTimestep)[k - Position(data, interval, startValue, |data| - 1) - 1]
  {
  }

  /** One trailing row of the output, k rows past the last recorded one. */
  lemma {:induction false} FillTrailingRow<T>(data: seq<Row<T>>, interval: int, startValue: T, finalTimestep: Option<int>, k: int)
    requires interval > 0 && data != []
    requires Position(data, interval, startValue, |data| - 1) < k < |Fill(data, interval, startValue, finalTimestep)|
    ensures var r := Fill(data, interval, startValue, finalTimestep);
            var last := Position(data, interval, startValue, |data| - 1);
            finalTimestep.Some? &&
            r[k].elems == data[|data| - 1].elems &&
            r[k].tick == Counter(data, interval, |data|) + (k - last - 1) * interval &&
            data[|data| - 1].tick <= r[k].tick <= finalTimestep.value
  {
    FillEnd(data, interval, startValue, finalTimestep);
    TrailAt(data, interval, finalTimestep, k - Position(data, interval, startValue, |data| - 1) - 1);
  }

  /** The trailing rows: none when the final timestep is absent; otherwise
      they hold the last row's elements and have ticks from the last
      recorded tick up to the final timestep, spaced by `interval`, and they
      go on until the next tick would pass the final timestep. */
  lemma {:induction false} FillTrailing<T>(data: seq<Row<T>>, interval: int, startValue: T, finalTimestep: Option<int>)
    requires interval > 0 && data != []
    ensures var r := Fill(data, interval, startValue, finalTimestep);
            var last := Position(data, interval, startValue, |data| - 1);
            last < |r| &&
            (finalTimestep.None? ==> |r| == last + 1) &&
            forall k :: last < k < |r| ==>
              finalTimestep.Some? &&
              r[k].elems == data[|data| - 1].elems &&
              r[k].tick == Counter(data, interval, |data|) + (k - last - 1) * interval &&
              data[|data| - 1].tick <= r[k].tick <= finalTimestep.value
    ensures var r := Fill(data, interval, startValue, finalTimestep);
            var last := Position(data, interval, startValue, |data| - 1);
            finalTimestep.Some? ==>
              Counter(data, interval, |data|) + (|r| - last - 1) * interval > finalTimestep.value
  {
    FillEnd(data, interval, startValue, finalTimestep);
    var r := Fill(data, interval, startValue, finalTimestep);
    var last := Position(data, interval, startValue, |data| - 1);
    if finalTimestep.Some? {
      RampEndAfterRamp(Counter(data, interval, |data|), finalTimestep.value + 1, interval);
    }
    forall k | last < k < |r|
      ensures finalTimestep.Some? &&
              r[k].elems == data[|data| - 1].elems &&
              r[k].tick == Counter(data, interval, |data|) + (k - last - 1) * interval &&
              data[|data| - 1].tick <= r[k].tick <= finalTimestep.value
    {
      FillTrailingRow(data, interval, startValue, finalTimestep, k);
    }
  }

  /** The loop counter lands exactly on `bound` when the distance to it is
      a whole number of steps. */
  lemma {:induction false} RampEndExact(from: int, bound: int, interval: int, q: nat)
    requires interval > 0 && bound == from + q * interval
    ensures RampEnd(from, bound, interval) == bound
    decreases q
  {
    if q > 0 {
      assert bound == (from + interval) + (q - 1) * interval;
      RampEndExact(from + interval, bound, interval, q - 1);
    }
  }

  /** Two different multiples of `interval` lie a whole number of steps,
      at least one, apart. */
  lemma MultiplesApart(a: int, b: int, interval: int)
    requires interval > 0 && a < b && a % interval == 0 && b % interval == 0
    ensures b - (a + interval) >= 0
    ensures b == (a + interval) + (b / interval - a / interval - 1) * interval
  {
    var qa, qb := a / interval, b / interval;
    assert a == qa * interval;
    assert b == qb * interval;
    var d := qb - qa;
    assert b - a == d * interval by {
      assert qb * interval - qa * interval == (qb - qa) * interval;
    }
    assert d <= 0 ==> d * interval <= 0;
    assert (d - 1) * interval == d * interval - interval;
    assert (d - 1) * interval >= 0;
  }

  /** A non-negative multiple of `interval` is a whole number of steps from 0. */
  lemma NonNegativeMultiple(a: int, interval: int)
    requires interval > 0 && a >= 0 && a % interval == 0
    ensures a / interval >= 0 && a == 0 + (a / interval) * interval
  {
    var q := a / interval;
    assert a == q * interval;
    assert q < 0 ==> q * interval < 0;
  }

  /** The trailing-counter behaviour: when every recorded tick is a
      non-negative multiple of the interval and ticks strictly increase, the
      trailing loop restarts at the last recorded tick, so for any final
      timestep at or past it the last recorded row is emitted a second time. */
  lemma {:induction false} FillRepeatsLastRow<T>(data: seq<Row<T>>, interval: int, startValue: T, final: int)
    requires interval > 0 && data != []
    requires forall i :: 0 <= i < |data| ==> data[i].tick >= 0 && data[i].tick % interval == 0
    requires forall i :: 0 < i < |data| ==> data[i - 1].tick < data[i].tick
    requires final >= data[|data| - 1].tick
    ensures var r := Fill(data, interval, startValue, Some(final));
            var last := Position(data, interval, startValue, |data| - 1);
            last + 1 < |r| && r[last] == data[|data| - 1] && r[last + 1] == data[|data| - 1]
  {
    var n := |data|;
    if n == 1 {
      NonNegativeMultiple(data[0].tick, interval);
      RampEndExact(0, data[0].tick, interval, data[0].tick / interval);
    } else {
      var a, b := data[n - 2].tick, data[n - 1].tick;
      MultiplesApart(a, b, interval);
      RampEndExact(a + interval, b, interval, b / interval - a / interval - 1);
    }
    assert Counter(data, interval, n) == data[n - 1].tick;
    FillTrailing(data, interval, startValue, Some(final));
    FillKeepsRow(data, interval, startValue, Some(final), n - 1);
    var r := Fill(data, interval, startValue, Some(final));
    var last := Position(data, interval, startValue, n - 1);
    assert r == (Lead(data, interval, startValue) + Body(data, interval, n)) + Trail(data, interval, Some(final));
    assert r[last + 1] == Trail(data, interval, Some(final))[0];
  }

  // ---------------------------------------------------------------------
  // Already uniform input
  // ---------------------------------------------------------------------

  /** Rows at ticks 0, interval, 2 * interval, ... with no tick missing. */
  ghost predicate OnGrid<T>(data: seq<Row<T>>, interval: int)
  {
    (data != [] ==> data[0].tick == 0) &&
    forall i :: 0 < i < |data| ==> data[i].tick == data[i - 1].tick + interval
  }

  /** On a grid, no gap loop runs: the body is the input itself. */
  lemma {:induction false} BodyOnGrid<T>(data: seq<Row<T>>, interval: int, m: nat)
    requires interval > 0 && 1 <= m <= |data| && OnGrid(data, interval)
    ensures Body(data, interval, m) == data[..m]
  {
    if m > 1 {
      BodyOnGrid(data, interval, m - 1);
      assert Gap(data, interval, m - 2) == [];
      assert data[..m] == data[..m - 1] + [data[m - 1]];
    }
  }

  /** Filling an already uniform sequence without a final timestep returns
      it unchanged. */
  lemma {:induction false} FillOnGrid<T>(data: seq<Row<T>>, interval: int, startValue: T)
    requires interval > 0 && OnGrid(data, interval)
    ensures Fill(data, interval, startValue, None) == data
  {
    if data != [] {
      BodyOnGrid(data, interval, |data|);
      assert Lead(data, interval, startValue) == [];
      assert data[..|data|] == data;
    }
  }

  // ---------------------------------------------------------------------
  // Frame sizes never decrease
  // ---------------------------------------------------------------------

  /** Each row holds at least as many elements as the row before it. */
  ghost predicate Growing<T>(rows: seq<Row<T>>)
  {
    forall k :: 0 < k < |rows| ==> |rows[k - 1].elems| <= |rows[k].elems|
  }

  /** Two growing sequences joined where the sizes do not drop. */
  lemma {:induction false} GrowingJoin<T>(a: seq<Row<T>>, b: seq<Row<T>>)
    requires Growing(a) && Growing(b)
    requires a != [] && b != [] ==> |a[|a| - 1].elems| <= |b[0].elems|
    ensures Growing(a + b)
  {
    var ab := a + b;
    forall k | 0 < k < |ab|
      ensures |ab[k - 1].elems| <= |ab[k].elems|
    {
      if k < |a| {
        assert ab[k - 1] == a[k - 1] && ab[k] == a[k];
      } else if k == |a| {
        assert ab[k - 1] == a[k - 1] && ab[k] == b[0];
      } else {
        assert ab[k - 1] == b[k - 1 - |a|] && ab[k] == b[k - |a|];
      }
    }
  }

  /** A ramp repeats one element list, so it is growing. */
  lemma {:induction false} RampGrowing<T>(from: int, bound: int, interval: int, elems: seq<T>)
    requires interval > 0
    ensures Growing(Ramp(from, bound, interval, elems))
  {
  }

  /** The body of a growing input is growing and ends with a row the size of
      the last recorded one. */
  lemma {:induction false} BodyGrowing<T>(data: seq<Row<T>>, interval: int, m: nat)
    requires interval > 0 && 1 <= m <= |data| && Growing(data)
    ensures Growing(Body(data, interval, m))
  {
    if m > 1 {
      var front := Body(data, interval, m - 1);
      var gap := Gap(data, interval, m - 2);
      BodyGrowing(data, interval, m - 1);
      BodyLast(data, interval, m - 1);
      RampGrowing(data[m - 2].tick + interval, data[m - 1].tick, interval, data[m - 2].elems);
      GrowingJoin(front, gap);
      assert |data[m - 2].elems| <= |data[m - 1].elems|;
      GrowingJoin(front + gap, [data[m - 1]]);
    }
  }

  /** Filling keeps frame sizes from decreasing when the input's do not and
      the first recorded row holds at least one element (the leading rows
      hold exactly one, the start value). */
  lemma {:induction false} FillGrowing<T>(data: seq<Row<T>>, interval: int, startValue: T, finalTimestep: Option<int>)
    requires interval > 0 && Growing(data)
    requires data != [] ==> data[0].elems != []
    ensures Growing(Fill(data, interval, startValue, finalTimestep))
  {
    if data != [] {
      var lead := Lead(data, interval, startValue);
      var body := Body(data, interval, |data|);
      var trail := Trail(data, interval, finalTimestep);
      RampGrowing(0, data[0].tick, interval, [startValue]);
      BodyGrowing(data, interval, |data|);
      BodyFirst(data, interval, |data|);
      if lead != [] {
        assert lead[|lead| - 1].elems == [startValue];
      }
      GrowingJoin(lead, body);
      BodyLast(data, interval, |data|);
      if finalTimestep.Some? {
        RampGrowing(Counter(data, interval, |data|), finalTimestep.value + 1, interval, data[|data| - 1].elems);
      }
      GrowingJoin(lead + body, trail);
    }
  }

  // ---------------------------------------------------------------------
  // The three stages chained (plotter.py main)
  // ---------------------------------------------------------------------

  /** combine, then accumulate, then fill. */
  function Pipeline<T(==)>(data: seq<Entry<T>>, interval: int, startValue: T, finalTimestep: Option<int>): (r: seq<Row<T>>)
    requires interval > 0
    ensures r == [] <==> data == []
  {
    Fill(Accumulate(Combine(data)), interval, startValue, finalTimestep)
  }

  /** The accumulated rows grow, and the first one is not empty. */
  lemma {:induction false} AccumulateGrowing<T>(rows: seq<Row<T>>)
    requires WellGrouped(rows)
    ensures Growing(Accumulate(rows))
    ensures rows != [] ==> Accumulate(rows)[0].elems != []
  {
    var acc := Accumulate(rows);
    forall k | 0 < k < |acc|
      ensures |acc[k - 1].elems| <= |acc[k].elems|
    {
      AccumulateGrows(rows, k - 1);
    }
    if rows != [] {
      var x := rows[0].elems[0];
      AccumulateMembers(rows, 0, x);
    }
  }

  /** No frame of the reconstructed series holds fewer elements than the
      frame before it. */
  lemma {:induction false} PipelineGrowing<T>(data: seq<Entry<T>>, interval: int, startValue: T, finalTimestep: Option<int>)
    requires interval > 0
    ensures Growing(Pipeline(data, interval, startValue, finalTimestep))
  {
    CombineWellGrouped(data);
    AccumulateGrowing(Combine(data));
    FillGrowing(Accumulate(Combine(data)), interval, startValue, finalTimestep);
  }

  /** The three stages in sequence, as main chains them. */
  method RunPipeline<T(==)>(data: seq<Entry<T>>, interval: int, startValue: T, finalTimestep: Option<int>)
    returns (filled: seq<Row<T>>)
    requires interval > 0
    ensures filled == Pipeline(data, interval, startValue, finalTimestep)
  {
    var combined := CombineCoordinates(data);
    var accumulated := AccumulateData(combined);
    filled := FillMissingTimesteps(accumulated, interval, startValue, finalTimestep);
  }

  /** Grouping is by runs: a tick that comes back after another one opens
      a new group instead of joining its earlier group. */
  lemma ExampleRuns()
    ensures Combine([Entry(0, 1), Entry(7, 2), Entry(0, 3)]) == [Row(0, [1]), Row(7, [2]), Row(0, [3])]
  {
    var data := [Entry(0, 1), Entry(7, 2), Entry(0, 3)];
    assert CombinePrefix(data, 1) == [Row(0, [1])];
    assert CombinePrefix(data, 2) == [Row(0, [1]), Row(7, [2])];
  }

  /** Two entries sharing a tick make one group. */
  lemma CombineTwo<T>(a: Entry<T>, b: Entry<T>)
    requires a.tick == b.tick
    ensures Combine([a, b]) == [Row(a.tick, [a.coord, b.coord])]
  {
    assert Combine([a]) == [Row(a.tick, [a.coord])];
    CombineSnoc([a], b);
    assert [a] + [b] == [a, b];
    AbsorbJoins([], Row(a.tick, [a.coord]), b);
    assert [a.coord] + [b.coord] == [a.coord, b.coord];
  }

  /** Two entries sharing a tick, then one with another tick, make two
      groups. */
  lemma CombineThree<T>(a: Entry<T>, b: Entry<T>, c: Entry<T>)
    requires a.tick == b.tick && b.tick != c.tick
    ensures Combine([a, b, c]) == [Row(a.tick, [a.coord, b.coord]), Row(c.tick, [c.coord])]
  {
    CombineTwo(a, b);
    CombineSnoc([a, b], c);
    AbsorbOpens([Row(a.tick, [a.coord, b.coord])], c);
    assert [a, b] + [c] == [a, b, c];
  }

  /** Grouping step of the worked example below. */
  lemma ExampleCombine()
    ensures Combine([Entry(0, 1), Entry(0, 3), Entry(50000, 5)]) == [Row(0, [1, 3]), Row(50000, [5])]
  {
    CombineThree(Entry(0, 1), Entry(0, 3), Entry(50000, 5));
  }

  /** Accumulation step of the worked example below. */
  lemma ExampleAccumulate()
    ensures Accumulate([Row(0, [1, 3]), Row(50000, [5])]) == [Row(0, [1, 3]), Row(50000, [1, 3, 5])]
  {
    var groups := [Row(0, [1, 3]), Row(50000, [5])];
    assert AddNew([], [1, 3], 2) == [1, 3];
    assert SeenAfter(groups, 1) == [1, 3];
    assert AddNew([1, 3], [5], 1) == [1, 3, 5];
    assert SeenAfter(groups, 2) == [1, 3, 5];
  }

  /** Filling step of the worked example below. */
  lemma ExampleFill()
    ensures Fill([Row(0, [1, 3]), Row(50000, [1, 3, 5])], 50000, -2, Some(100000))
            == [Row(0, [1, 3]), Row(50000, [1, 3, 5]), Row(50000, [1, 3, 5]), Row(100000, [1, 3, 5])]
  {
    var acc := [Row(0, [1, 3]), Row(50000, [1, 3, 5])];
    assert Lead(acc, 50000, -2) == [];
    assert Gap(acc, 50000, 0) == [];
    assert Body(acc, 50000, 2) == acc;
    assert Counter(acc, 50000, 2) == 50000;
    assert Steps(50000, 100001, 50000) == 2;
    assert Trail(acc, 50000, Some(100000)) == [Row(50000, [1, 3, 5]), Row(100000, [1, 3, 5])];
  }

  /** Three deletions, two at tick 0 and one at tick 50000, sampled every
      50000 ticks up to tick 100000, with start value -2: the frame at tick
      50000 is emitted twice, once as recorded and once by the trailing loop,
      before the repeat at tick 100000. */
  lemma ReconstructionExample()
    ensures Pipeline([Entry(0, 1), Entry(0, 3), Entry(50000, 5)], 50000, -2, Some(100000))
            == [Row(0, [1, 3]), Row(50000, [1, 3, 5]), Row(50000, [1, 3, 5]), Row(100000, [1, 3, 5])]
  {
    ExampleCombine();
    ExampleAccumulate();
    ExampleFill();
  }
}
