/** The month selector offered to Home Assistant (`update_ha_menu` in
    peimar_bridge/peimar.py): every archived month as "YYYY-MM", newest
    first. */
module Menu {
  import opened Base
  import opened Text
  import opened History

  const OptionsTopic := "peimar/history/options"

  /** A non-empty set has a member. The solver does not draw this from
      `s != {}` on its own, so the proof by contradiction is spelled out. */
  lemma NonEmptyHasMember(s: set<int>)
    requires s != {}
    ensures exists x :: x in s
  {
    if forall x :: x !in s {
      assert false;
    }
  }

  /** A finite set of integers has a least element. */
  lemma {:induction false} MinExists(s: set<int>)
    requires s != {}
    ensures exists m :: m in s && forall x :: x in s ==> m <= x
    decreases |s|
  {
    NonEmptyHasMember(s);
    var x :| x in s;
    var rest := s - {x};
    if rest == {} {
      forall y | y in s ensures x <= y {
        assert y !in rest;
      }
    } else {
      MinExists(rest);
      var m :| m in rest && forall y :: y in rest ==> m <= y;
      var least := if x < m then x else m;
      forall y | y in s ensures least <= y {
        if y != x { assert y in rest; }
      }
      assert least in s;
    }
  }

  function SetMin(s: set<int>): (m: int)
    requires s != {}
    ensures m in s && forall x :: x in s ==> m <= x
  {
    MinExists(s);
    var m :| m in s && forall x :: x in s ==> m <= x;
    m
  }

  /** `sorted(keys, key=int)` on integer keys: the set in ascending order. */
  function SortedInts(s: set<int>): (r: seq<int>)
    ensures |r| == |s|
    ensures forall x :: x in r <==> x in s
    ensures forall i, j :: 0 <= i < j < |r| ==> r[i] < r[j]
    decreases |s|
  {
    if s == {} then []
    else
      var m := SetMin(s);
      var rest := SortedInts(s - {m});
      assert forall k :: 0 <= k < |rest| ==> m < rest[k] by {
        forall k | 0 <= k < |rest| ensures m < rest[k] {
          assert rest[k] in s - {m};
        }
      }
      assert forall x :: x in [m] + rest <==> x == m || x in rest;
      [m] + rest
  }

  /** One year's months as (year, month) pairs. */
  function YearPairs(y: int, months: seq<int>): (r: seq<(int, int)>)
    ensures |r| == |months|
    ensures forall i :: 0 <= i < |r| ==> r[i] == (y, months[i])
  {
    seq(|months|, i requires 0 <= i < |months| => (y, months[i]))
  }

  /** The nested loop of `update_ha_menu` before the reverse: for each year
      in `years`, its months in ascending order. */
  function Chronological(h: Archive, years: seq<int>): seq<(int, int)>
    requires forall i :: 0 <= i < |years| ==> years[i] in h
    decreases |years|
  {
    if |years| == 0 then []
    else YearPairs(years[0], SortedInts(h[years[0]].Keys)) + Chronological(h, years[1..])
  }

  /** One year's pairs hold exactly that year with each listed month. */
  lemma YearPairsMembers(y: int, months: seq<int>)
    ensures forall a, m :: (a, m) in YearPairs(y, months) <==> a == y && m in months
  {
    var r := YearPairs(y, months);
    forall a, m | (a, m) in r ensures a == y && m in months {
      var i :| 0 <= i < |r| && r[i] == (a, m);
      assert months[i] == m;
    }
    forall a, m | a == y && m in months ensures (a, m) in r {
      var i :| 0 <= i < |months| && months[i] == m;
      assert r[i] == (a, m);
    }
  }

  /** The listing holds exactly the months of the listed years. */
  lemma {:induction false} ChronologicalMembers(h: Archive, years: seq<int>)
    requires forall i :: 0 <= i < |years| ==> years[i] in h
    ensures forall y, m :: (y, m) in Chronological(h, years) <==> y in years && m in h[y]
    decreases |years|
  {
    if |years| > 0 {
      var y := years[0];
      var head := YearPairs(y, SortedInts(h[y].Keys));
      var tail := Chronological(h, years[1..]);
      ChronologicalMembers(h, years[1..]);
      YearPairsMembers(y, SortedInts(h[y].Keys));
      assert Chronological(h, years) == head + tail;
      assert years == [y] + years[1..];
      forall a, m
        ensures (a, m) in head + tail <==> a in years && m in h[a]
      {
        assert (a, m) in head + tail <==> (a, m) in head || (a, m) in tail;
        assert a in years <==> a == y || a in years[1..];
      }
    }
  }

  /** A list of months in strictly chronological order. */
  predicate Ascending(c: seq<(int, int)>) {
    forall i, j :: 0 <= i < j < |c| ==> Before(c[i], c[j])
  }

  /** Ascending months of one year are chronological. */
  lemma YearPairsAscending(y: int, months: seq<int>)
    requires forall i, j :: 0 <= i < j < |months| ==> months[i] < months[j]
    ensures Ascending(YearPairs(y, months))
  {
    var r := YearPairs(y, months);
    forall i, j | 0 <= i < j < |r| ensures Before(r[i], r[j]) {
      assert r[i] == (y, months[i]) && r[j] == (y, months[j]);
    }
  }

  /** Two chronological lists, the first entirely before the second, join
      into a chronological list. */
  lemma ConcatAscending(a: seq<(int, int)>, b: seq<(int, int)>)
    requires Ascending(a) && Ascending(b)
    requires forall i, j :: 0 <= i < |a| && 0 <= j < |b| ==> Before(a[i], b[j])
    ensures Ascending(a + b)
  {
    var c := a + b;
    forall i, j | 0 <= i < j < |c| ensures Before(c[i], c[j]) {
      if j < |a| {
        assert c[i] == a[i] && c[j] == a[j];
      } else if i < |a| {
        assert c[i] == a[i] && c[j] == b[j - |a|];
      } else {
        assert c[i] == b[i - |a|] && c[j] == b[j - |a|];
      }
    }
  }

  /** Listing years in ascending order lists the months in chronological
      order. */
  lemma {:induction false} ChronologicalOrdered(h: Archive, years: seq<int>)
    requires forall i :: 0 <= i < |years| ==> years[i] in h
    requires forall i, j :: 0 <= i < j < |years| ==> years[i] < years[j]
    ensures Ascending(Chronological(h, years))
    decreases |years|
  {
    if |years| > 0 {
      var y := years[0];
      var head := YearPairs(y, SortedInts(h[y].Keys));
      var tail := Chronological(h, years[1..]);
      ChronologicalOrdered(h, years[1..]);
      ChronologicalMembers(h, years[1..]);
      YearPairsAscending(y, SortedInts(h[y].Keys));
      forall i, j | 0 <= i < |head| && 0 <= j < |tail|
        ensures Before(head[i], tail[j])
      {
        var (a, m) := tail[j];
        assert (a, m) in tail;
        var k :| 0 <= k < |years[1..]| && years[1..][k] == a;
        assert years[1..][k] == years[k + 1];
        assert head[i].0 == y;
      }
      ConcatAscending(head, tail);
      assert Chronological(h, years) == head + tail;
    }
  }

  function Reverse<T>(s: seq<T>): (r: seq<T>)
    ensures |r| == |s|
    ensures forall i :: 0 <= i < |s| ==> r[i] == s[|s| - 1 - i]
  {
    seq(|s|, i requires 0 <= i < |s| => s[|s| - 1 - i])
  }

  /** Reversing keeps the elements. */
  lemma ReverseMembers<T>(s: seq<T>)
    ensures forall p :: p in Reverse(s) <==> p in s
  {
    var r := Reverse(s);
    forall p | p in r ensures p in s {
      var i :| 0 <= i < |r| && r[i] == p;
      assert s[|s| - 1 - i] == p;
    }
    forall p | p in s ensures p in r {
      var i :| 0 <= i < |s| && s[i] == p;
      assert r[|s| - 1 - i] == p;
    }
  }

  /** Reversing an ascending list of months gives a descending one. */
  lemma ReverseOrdered(c: seq<(int, int)>)
    requires Ascending(c)
    ensures forall i, j :: 0 <= i < j < |c| ==> Before(Reverse(c)[j], Reverse(c)[i])
  {
    var r := Reverse(c);
    forall i, j | 0 <= i < j < |c| ensures Before(r[j], r[i]) {
      assert r[j] == c[|c| - 1 - j] && r[i] == c[|c| - 1 - i];
    }
  }

  /** Every archived month, oldest first. */
  function AllMonths(h: Archive): seq<(int, int)> {
    Chronological(h, SortedInts(h.Keys))
  }

  /** The reversed listing of all years holds every archived month. */
  lemma NewestFirstMembers(h: Archive)
    ensures forall y, m :: (y, m) in Reverse(AllMonths(h)) <==> y in h && m in h[y]
  {
    var years := SortedInts(h.Keys);
    var c := AllMonths(h);
    ChronologicalMembers(h, years);
    ReverseMembers(c);
    forall y, m ensures (y, m) in c <==> y in h && m in h[y] {
      assert y in years <==> y in h;
    }
  }

  /** The reversed listing of all years is newest first. */
  lemma NewestFirstOrdered(h: Archive)
    ensures forall i, j :: 0 <= i < j < |Reverse(AllMonths(h))| ==>
      Before(Reverse(AllMonths(h))[j], Reverse(AllMonths(h))[i])
  {
    ChronologicalOrdered(h, SortedInts(h.Keys));
    ReverseOrdered(AllMonths(h));
  }

  /** The menu order before labelling: the archive's months, newest first. */
  function MenuPairs(h: Archive): (r: seq<(int, int)>)
    ensures forall y, m :: (y, m) in r <==> y in h && m in h[y]
    ensures forall i, j :: 0 <= i < j < |r| ==> Before(r[j], r[i])
  {
    NewestFirstMembers(h);
    NewestFirstOrdered(h);
    Reverse(AllMonths(h))
  }

  /** `"{}-{:02d}".format(year, month)`. */
  function MonthLabel(y: int, m: int): string {
    IntToString(y) + "-" + Pad2(m)
  }

  /** The labels of `pairs`, in the same order. */
  function Labels(pairs: seq<(int, int)>): (items: seq<JsonValue>)
    ensures |items| == |pairs|
    ensures forall i :: 0 <= i < |items| ==> items[i] == JStr(MonthLabel(pairs[i].0, pairs[i].1))
  {
    seq(|pairs|, i requires 0 <= i < |pairs| => JStr(MonthLabel(pairs[i].0, pairs[i].1)))
  }

  /** The message `update_ha_menu` publishes: a JSON list with one label per
      archived month, newest first; the empty archive gives the empty list. */
  function UpdateHaMenu(h: Archive): (msg: Message)
    ensures msg.topic == OptionsTopic && msg.payload.JArr?
    ensures |msg.payload.items| == |MenuPairs(h)|
    ensures forall i :: 0 <= i < |msg.payload.items| ==>
      msg.payload.items[i] == JStr(MonthLabel(MenuPairs(h)[i].0, MenuPairs(h)[i].1))
    ensures (forall y :: y in h ==> h[y] == map[]) ==> msg.payload.items == []
  {
    var pairs := MenuPairs(h);
    if |pairs| > 0 then
      assert pairs[0] in pairs;
      Message(OptionsTopic, JArr(Labels(pairs)))
    else
      Message(OptionsTopic, JArr([]))
  }

  /** A label of a non-negative year and month splits at its dash into the
      year's digits and the month's two-digit text. */
  lemma MonthLabelParts(y: int, m: int)
    requires y >= 0 && m >= 0
    ensures Split(MonthLabel(y, m), '-') == [IntToString(y), Pad2(m)]
  {
    assert '-' !in Pad2(m) by { assert AllDigits(Pad2(m)); }
    DashSplit(y, Pad2(m));
  }

  /** A non-negative year, a dash and a text without dashes split back into
      the year's digits and that text. */
  lemma DashSplit(y: int, a: string)
    requires y >= 0 && '-' !in a
    ensures Split(IntToString(y) + "-" + a, '-') == [IntToString(y), a]
  {
    var parts := [IntToString(y), a];
    assert '-' !in IntToString(y) by { assert AllDigits(IntToString(y)); }
    assert Join(parts, '-') == IntToString(y) + "-" + a;
    SplitJoin(parts, '-');
  }

  /** Different months of non-negative years get different labels, so the
      menu never lists an entry twice. */
  lemma MonthLabelInjective(y1: int, m1: int, y2: int, m2: int)
    requires y1 >= 0 && m1 >= 0 && y2 >= 0 && m2 >= 0
    requires MonthLabel(y1, m1) == MonthLabel(y2, m2)
    ensures y1 == y2 && m1 == m2
  {
    MonthLabelParts(y1, m1);
    MonthLabelParts(y2, m2);
    IntToStringInjective(y1, y2);
  }
}
