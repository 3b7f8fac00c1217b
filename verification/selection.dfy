/** The handler for a month chosen in Home Assistant (`on_message` in
    peimar_bridge/peimar.py): validate the payload, look the month up in
    the archive and publish its four totals. */
module Selection {
  import opened Base
  import opened Text
  import opened History
  import opened Menu

  /** What one incoming selection leads to. `Raised` is an exception the
      handler catches and logs, so like `Ignored` and `NotFound` it
      publishes nothing. */
  datatype Handled =
    | Ignored
    | Raised(error: Error)
    | NotFound
    | Published(messages: seq<Message>)

  const SelectedTopics: seq<string> := [
    "peimar/history/selected/pv",
    "peimar/history/selected/use",
    "peimar/history/selected/buy",
    "peimar/history/selected/sell"]

  /** The four totals of a month on their topics, in publication order. */
  function Figures(rec: MonthRecord): (ms: seq<Message>)
    ensures |ms| == |SelectedTopics|
    ensures forall i :: 0 <= i < |ms| ==> ms[i].topic == SelectedTopics[i]
    ensures [ms[0].payload, ms[1].payload, ms[2].payload, ms[3].payload] ==
      [JNum(rec.pv), JNum(rec.use), JNum(rec.buy), JNum(rec.sell)]
  {
    [ Message(SelectedTopics[0], JNum(rec.pv)),
      Message(SelectedTopics[1], JNum(rec.use)),
      Message(SelectedTopics[2], JNum(rec.buy)),
      Message(SelectedTopics[3], JNum(rec.sell)) ]
  }

  /** The first check of the handler: the stripped payload must contain a
      dash and be at least six characters long. */
  predicate PassesGate(text: string) {
    '-' in text && |text| >= 6
  }

  /** The payload can be taken apart: exactly one dash, and a month part
      `int()` accepts. */
  predicate WellFormed(text: string) {
    var parts := Split(text, '-');
    |parts| == 2 && PyInt(parts[1]).Some?
  }

  /** `on_message` on a decoded payload, with `history` the archive as read
      from disk. The year part must be the archive's own spelling of the
      year; the month part is normalised through `int()`. */
  function OnMessage(payload: string, history: Archive): (r: Handled)
    ensures r.Ignored? <==> !PassesGate(Strip(payload))
    ensures r.Raised? <==> PassesGate(Strip(payload)) && !WellFormed(Strip(payload))
    ensures r.Raised? ==> r.error == ValueError
    // a year part spelled `str(y)` selects month int(m) of year y
    ensures var t := Strip(payload); var parts := Split(t, '-');
      forall y :: PassesGate(t) && WellFormed(t) && IntToString(y) == parts[0] ==>
        r == Lookup(history, y, PyInt(parts[1]).value)
    // any other year part ("+2024", "02024", "abcd") matches no archive key
    ensures var t := Strip(payload); var parts := Split(t, '-');
      PassesGate(t) && WellFormed(t) && (forall y :: IntToString(y) != parts[0]) ==> r == NotFound
  {
    HandleResolves(Strip(payload), history);
    Handle(Strip(payload), history)
  }

  /** The lookup `history[y_req][m_req]`: the four totals when the archive
      holds month `m` of year `y`, nothing otherwise. */
  function Lookup(history: Archive, y: int, m: int): (r: Handled)
    ensures r.Published? <==> y in history && m in history[y]
    ensures r.Published? ==> r.messages == Figures(history[y][m])
    ensures !r.Published? ==> r == NotFound
  {
    if y in history && m in history[y] then Published(Figures(history[y][m])) else NotFound
  }

  /** A well-formed text resolves to the month its parts name when its year
      part is some `str(y)`, and to nothing otherwise. */
  lemma HandleResolves(text: string, history: Archive)
    ensures var parts := Split(text, '-');
      forall y :: PassesGate(text) && WellFormed(text) && IntToString(y) == parts[0] ==>
        Handle(text, history) == Lookup(history, y, PyInt(parts[1]).value)
    ensures var parts := Split(text, '-');
      PassesGate(text) && WellFormed(text) && (forall y :: IntToString(y) != parts[0]) ==>
        Handle(text, history) == NotFound
  {
    var parts := Split(text, '-');
    if PassesGate(text) && WellFormed(text) {
      var c := CanonicalInt(parts[0]);
      if c.Some? {
        forall y | IntToString(y) == parts[0]
          ensures Handle(text, history) == Lookup(history, y, PyInt(parts[1]).value)
        {
          IntToStringInjective(y, c.value);
        }
      }
    }
  }

  /** The handler on the stripped payload. */
  function Handle(text: string, history: Archive): Handled {
    if !PassesGate(text) then Ignored
    else if !WellFormed(text) then Raised(ValueError)
    else
      var parts := Split(text, '-');
      var m := PyInt(parts[1]).value;
      match CanonicalInt(parts[0])
      case Some(y) => Lookup(history, y, m)
      case None => NotFound
  }

  /** How a selection resolves: a stripped payload made of the year `y`
      written the archive's way, a dash, and a month text `a` that `int()`
      turns into `m` publishes the totals of (y, m) when the archive holds
      that month and publishes nothing otherwise. */
  lemma SelectionResolves(history: Archive, y: int, a: string)
    requires y >= 0 && '-' !in a && PyInt(a).Some?
    requires |IntToString(y)| + |a| >= 5
    ensures var m := PyInt(a).value;
      Handle(IntToString(y) + "-" + a, history) ==
        if y in history && m in history[y] then Published(Figures(history[y][m])) else NotFound
  {
    DashGate(y, a);
    DashSplit(y, a);
    CanonicalIntOfIntToString(y);
  }

  /** A year, a dash and a month text long enough together pass the gate. */
  lemma DashGate(y: int, a: string)
    requires |IntToString(y)| + |a| >= 5
    ensures PassesGate(IntToString(y) + "-" + a)
  {
    var text := IntToString(y) + "-" + a;
    assert text[|IntToString(y)|] == '-';
  }

  /** The month key is normalised: two payloads that differ only in how
      they write the same month number ("2024-03" and "2024-3") are handled
      the same way. */
  lemma MonthKeyNormalised(p1: string, p2: string, history: Archive, y: int, a1: string, a2: string)
    requires y >= 0 && '-' !in a1 && '-' !in a2
    requires PyInt(a1).Some? && PyInt(a1) == PyInt(a2)
    requires Strip(p1) == IntToString(y) + "-" + a1 && |Strip(p1)| >= 6
    requires Strip(p2) == IntToString(y) + "-" + a2 && |Strip(p2)| >= 6
    ensures OnMessage(p1, history) == OnMessage(p2, history)
  {
    SelectionResolves(history, y, a1);
    SelectionResolves(history, y, a2);
  }

  /** A payload with no dash is ignored, whatever the archive holds. */
  lemma NoDashIgnored(payload: string, history: Archive)
    requires '-' !in payload
    ensures OnMessage(payload, history) == Ignored
  {
  }

  /** The label of an archived month, sent back as a selection, publishes
      that month's totals (for years from 100 on, whose labels pass the
      six-character gate). */
  lemma LabelSelects(history: Archive, y: int, m: int)
    requires y >= 100 && m >= 0
    ensures OnMessage(MonthLabel(y, m), history) ==
      if y in history && m in history[y] then Published(Figures(history[y][m])) else NotFound
  {
    var entry := MonthLabel(y, m);
    LongYear(y);
    assert entry[0] == IntToString(y)[0];
    assert entry[|entry| - 1] == Pad2(m)[|Pad2(m)| - 1];
    StripTrimmed(entry);
    PyIntOfPad2(m);
    assert '-' !in Pad2(m);
    SelectionResolves(history, y, Pad2(m));
  }

  /** The label of a month of a year from -9 to 99 is shorter than six
      characters, so sent back it is ignored by the gate. */
  lemma ShortLabelIgnored(history: Archive, y: int, m: int)
    requires -9 <= y < 100 && 0 <= m < 100
    ensures OnMessage(MonthLabel(y, m), history) == Ignored
  {
    assert |IntToString(y)| <= 2;
    assert |MonthLabel(y, m)| <= 5;
  }

  /** The label of a month of a year from -10 down starts with the year's
      minus sign: sent back it passes the gate, splits into three parts and
      raises inside the handler. */
  lemma NegativeYearLabelRaises(history: Archive, y: int, m: int)
    requires y <= -10 && m >= 0
    ensures OnMessage(MonthLabel(y, m), history) == Raised(ValueError)
  {
    NegativeLabelShape(y, m);
    SignedSplit(NatToString(-y), Pad2(m));
    assert PassesGate(MonthLabel(y, m)) && !WellFormed(MonthLabel(y, m));
  }

  /** Such a label is a minus sign, the year's digits, a dash and the
      month's digits, at least six characters, with nothing to strip. */
  lemma NegativeLabelShape(y: int, m: int)
    requires y <= -10 && m >= 0
    ensures MonthLabel(y, m) == "-" + NatToString(-y) + "-" + Pad2(m)
    ensures |MonthLabel(y, m)| >= 6 && Strip(MonthLabel(y, m)) == MonthLabel(y, m)
  {
    var d, p := NatToString(-y), Pad2(m);
    var entry := MonthLabel(y, m);
    assert |d| >= 2 && |p| >= 2;
    assert entry == "-" + d + "-" + p;
    assert entry[0] == '-' && entry[|entry| - 1] == p[|p| - 1];
    assert !IsSpace(p[|p| - 1]);
    StripTrimmed(entry);
  }

  /** A minus sign, digits, a dash and digits split into an empty first
      part and the two digit runs. */
  lemma SignedSplit(d: string, p: string)
    requires AllDigits(d) && AllDigits(p)
    ensures Split("-" + d + "-" + p, '-') == ["", d, p]
  {
    var parts := ["", d, p];
    assert '-' !in d && '-' !in p;
    assert Join(parts[2..], '-') == p;
    assert Join(parts[1..], '-') == d + "-" + p;
    assert Join(parts, '-') == "-" + d + "-" + p;
    SplitJoin(parts, '-');
  }

  /** Every entry of the menu, sent back as a selection, publishes exactly
      the totals of the month it names. */
  lemma MenuSelectionRoundTrip(history: Archive, i: int)
    requires forall y :: y in history ==> y >= 100
    requires forall y, m :: y in history && m in history[y] ==> m >= 0
    requires 0 <= i < |UpdateHaMenu(history).payload.items|
    ensures var (y, m) := MenuPairs(history)[i];
      y in history && m in history[y] &&
      OnMessage(UpdateHaMenu(history).payload.items[i].s, history) == Published(Figures(history[y][m]))
  {
    var (y, m) := MenuPairs(history)[i];
    assert (y, m) in MenuPairs(history);
    LabelSelects(history, y, m);
  }

  /** `int("{:02d}".format(m)) == m`: a padded month reads back as itself. */
  lemma PyIntOfPad2(m: int)
    requires m >= 0
    ensures PyInt(Pad2(m)) == Some(m)
  {
    PyIntOfDigits(Pad2(m));
  }

  /** A year from 100 on takes at least three digits, so its label is at
      least six characters. */
  lemma LongYear(y: int)
    requires y >= 100
    ensures |IntToString(y)| >= 3
  {
    assert NatToString(y) == NatToString(y / 10) + [DigitChar(y % 10)];
    assert NatToString(y / 10) == NatToString(y / 100) + [DigitChar((y / 10) % 10)];
  }

  // The worked examples, one literal fact per step.

  const ExampleArchive: Archive := map[2024 := map[3 := MonthRecord(10.0, 5.0, 1.0, 2.0)]]

  lemma ExampleYearText()
    ensures IntToString(2024) == "2024"
  {
    assert NatToString(2) == "2";
    assert NatToString(20) == "20";
    assert NatToString(202) == "202";
  }

  lemma ExampleShortTrimmed() ensures Strip("2024-3") == "2024-3" {
    assert !IsSpace('2') && !IsSpace('3');
    var t := "2024-3";
    assert t[0] == '2' && t[|t| - 1] == '3';
    StripTrimmed(t);
  }
  lemma ExampleShortText() ensures IntToString(2024) + "-" + "3" == "2024-3" {
    ExampleYearText();
  }
  lemma ExamplePaddedTrimmed() ensures Strip("2024-03") == "2024-03" {
    assert !IsSpace('2') && !IsSpace('3');
    var t := "2024-03";
    assert t[0] == '2' && t[|t| - 1] == '3';
    StripTrimmed(t);
  }
  lemma ExamplePaddedText() ensures IntToString(2024) + "-" + "03" == "2024-03" {
    ExampleYearText();
  }
  lemma ExampleShortMonth() ensures PyInt("3") == Some(3) {
    PyIntOfDigits("3");
  }
  lemma ExamplePaddedMonth() ensures PyInt("03") == Some(3) {
    assert Pad2(3) == "03";
    PyIntOfPad2(3);
  }

  /** "2024-3" publishes pv 10, use 5, buy 1, sell 2, and "2024-03" does
      the same. */
  lemma SelectionExample()
    ensures OnMessage("2024-3", ExampleArchive) == Published(Figures(MonthRecord(10.0, 5.0, 1.0, 2.0)))
    ensures OnMessage("2024-03", ExampleArchive) == OnMessage("2024-3", ExampleArchive)
  {
    ExampleShortTrimmed();
    ExampleShortText();
    ExamplePaddedTrimmed();
    ExamplePaddedText();
    ExampleShortMonth();
    ExamplePaddedMonth();
    SelectionResolves(ExampleArchive, 2024, "3");
    SelectionResolves(ExampleArchive, 2024, "03");
  }

  lemma ExampleDashes()
    ensures Split("not-a-month", '-') == ["not", "a", "month"]
  {
    var parts := ["not", "a", "month"];
    assert Join(parts, '-') == "not-a-month";
    SplitJoin(parts, '-');
  }

  lemma ExampleMalformedTrimmed() ensures Strip("not-a-month") == "not-a-month" {
    assert !IsSpace('n') && !IsSpace('h');
    var t := "not-a-month";
    assert t[0] == 'n' && t[|t| - 1] == 'h';
    StripTrimmed(t);
  }

  /** "not-a-month" has two dashes: the handler raises and publishes
      nothing. */
  lemma MalformedExample()
    ensures OnMessage("not-a-month", ExampleArchive) == Raised(ValueError)
  {
    ExampleMalformedTrimmed();
    ExampleDashes();
  }

  lemma ExampleSignedTrimmed() ensures Strip("+2024-3") == "+2024-3" {
    assert !IsSpace('+') && !IsSpace('3');
    var t := "+2024-3";
    assert t[0] == '+' && t[|t| - 1] == '3';
    StripTrimmed(t);
  }

  lemma ExampleSignedDashes()
    ensures Split("+2024-3", '-') == ["+2024", "3"]
  {
    var parts := ["+2024", "3"];
    assert Join(parts, '-') == "+2024-3";
    SplitJoin(parts, '-');
  }

  /** No integer is written with a leading '+'. */
  lemma NoSignedYear()
    ensures forall y :: IntToString(y) != "+2024"
  {
    forall y ensures IntToString(y) != "+2024" {
      IntToStringSign(y);
      if y >= 0 {
        assert IsDigit(IntToString(y)[0]);
      }
    }
  }

  /** "+2024-3" names 2024 the way `int()` would, but the archive is keyed
      by the text "2024": the lookup misses and nothing is published, even
      though March 2024 is archived. */
  lemma SignedYearExample()
    ensures OnMessage("+2024-3", ExampleArchive) == NotFound
  {
    ExampleSignedTrimmed();
    ExampleSignedDashes();
    ExampleShortMonth();
    NoSignedYear();
  }
}
