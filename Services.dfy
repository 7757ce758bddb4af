/** services.py: one line of the daily activity log (`DailyLogRow`), how it
    is parsed into a start time and a description, the ordered keyword table
    that classifies a description, and the `DailyLog` record. */
module Services {
  import opened Wrappers
  import opened PyStr
  import opened PyInt

  // ---------------------------------------------------------------------------
  // Dates and times

  /** `datetime.weekday()`: Monday is 0, Sunday is 6. */
  type Weekday = d: int | 0 <= d < 7

  /** `calendar.day_abbr` in the default locale. */
  const DayAbbr: seq<string> := ["Mon", "Tue", "Wed", "Thu", "Fri", "Sat", "Sun"]

  /** The datetime the external date parser made of a section's date text.
      The row reads nothing of it but its weekday. */
  datatype Date = Date(weekday: Weekday)

  const MinutesPerDay := 1440

  /** `timedelta.max.days`: a timedelta whose day count is larger than this in
      magnitude is refused with OverflowError. */
  const MaxDays := 999999999

  /** A duration of `minutes` minutes is representable as a `timedelta`; its
      day count is the floor of minutes / 1440 (Dafny's `/` by a positive
      divisor rounds down, as Python normalises). */
  predicate InTimedeltaRange(minutes: int)
  {
    -MaxDays <= minutes / MinutesPerDay <= MaxDays
  }

  // ---------------------------------------------------------------------------
  // Parsing one row

  /** Why `DailyLogRow.parse` raises. */
  datatype ParseError =
    | FieldCount(fields: nat)    // neither 2 nor 3 comma fields: `None.strip()` raises AttributeError
    | TimeShape(parts: nat)      // the time is not two ':' parts: tuple unpacking raises ValueError
    | NotInteger(text: string)   // `int()` raises ValueError
    | OutOfRange(minutes: int)   // `timedelta()` raises OverflowError

  /** What a successful parse stores: the start time as minutes since
      midnight, and the description. */
  datatype Entry = Entry(startMinutes: int, description: string)

  /** `timedelta(hours=int(hour), minutes=int(minute))`, in minutes. */
  function TimeOf(hourText: string, minuteText: string): (r: Result<int, ParseError>)
    ensures r.Success? ==> InTimedeltaRange(r.value)
    ensures r.Failure? ==> r.error.NotInteger? || r.error.OutOfRange?
  {
    match (ParseInt(hourText), ParseInt(minuteText))
    case (None, _) => Failure(NotInteger(hourText))
    case (_, None) => Failure(NotInteger(minuteText))
    case (Some(hour), Some(minute)) =>
      var minutes := 60 * hour + minute;
      if InTimedeltaRange(minutes) then Success(minutes) else Failure(OutOfRange(minutes))
  }

  /** The time column: stripped, split on ':' into exactly an hour and a
      minute, combined by TimeOf. */
  function ParseTime(field: string): (r: Result<int, ParseError>)
    ensures r.Success? ==> InTimedeltaRange(r.value)
    ensures r.Failure? ==> !r.error.FieldCount?
  {
    var parts := Split(Strip(field), ':');
    if |parts| != 2 then Failure(TimeShape(|parts|)) else TimeOf(parts[0], parts[1])
  }

  /** `DailyLogRow.parse` as a function of the raw row: split on ',', keep
      the first two of two or three fields, parse the time, strip the
      description. A third field (the persons) is read and dropped. */
  function ParseEntry(row: string): Result<Entry, ParseError>
  {
    var columns := Split(row, ',');
    if |columns| != 2 && |columns| != 3 then Failure(FieldCount(|columns|))
    else
      match ParseTime(columns[0])
      case Failure(e) => Failure(e)
      case Success(minutes) => Success(Entry(minutes, Strip(columns[1])))
  }

  /** The row is parsed exactly when it holds one or two commas; with any
      other number of commas the failure reports the number of fields. */
  lemma FieldCountDecides(row: string)
    ensures (ParseEntry(row).Failure? && ParseEntry(row).error.FieldCount?)
            <==> (Count(row, ',') != 1 && Count(row, ',') != 2)
    ensures ParseEntry(row).Failure? && ParseEntry(row).error.FieldCount? ==>
              ParseEntry(row).error.fields == Count(row, ',') + 1
  {
    SplitCount(row, ',');
    var columns := Split(row, ',');
    if |columns| == 2 || |columns| == 3 {
      var _ := ParseTime(columns[0]);
    }
  }

  lemma JoinTwo(a: string, b: string, sep: char)
    ensures Join([a, b], sep) == a + [sep] + b
  {
    assert [a, b][1..] == [b];
  }

  lemma JoinThree(a: string, b: string, c: string, sep: char)
    ensures Join([a, b, c], sep) == a + [sep] + b + [sep] + c
  {
    assert [a, b, c][1..] == [b, c];
    JoinTwo(b, c, sep);
  }

  /** A third, persons field changes nothing: the row parses as if it held
      only the time and the description. */
  lemma PersonsIgnored(time: string, desc: string, persons: string)
    requires ',' !in time && ',' !in desc && ',' !in persons
    ensures ParseEntry(time + "," + desc + "," + persons) == ParseEntry(time + "," + desc)
  {
    JoinThree(time, desc, persons, ',');
    JoinTwo(time, desc, ',');
    SplitJoin([time, desc, persons], ',');
    SplitJoin([time, desc], ',');
  }

  lemma ParseTimeParts(field: string, hourText: string, minuteText: string)
    requires Split(Strip(field), ':') == [hourText, minuteText]
    ensures ParseTime(field) == TimeOf(hourText, minuteText)
  {
  }

  lemma TimeOfValues(hourText: string, minuteText: string, hour: int, minute: int)
    requires ParseInt(hourText) == Some(hour) && ParseInt(minuteText) == Some(minute)
    ensures var minutes := 60 * hour + minute;
      TimeOf(hourText, minuteText)
      == if InTimedeltaRange(minutes) then Success(minutes) else Failure(OutOfRange(minutes))
  {
  }

  /** "H:MM" splits into the hour and the minute text. */
  lemma TimeTextSplits(hour: int, minute: int)
    ensures var h, m := Decimal(hour), Decimal(minute);
      Split(Strip(h + ":" + m), ':') == [h, m]
  {
    var h, m := Decimal(hour), Decimal(minute);
    DecimalShape(hour);
    DecimalShape(minute);
    var s := h + ":" + m;
    assert s[0] == h[0] && s[|s| - 1] == m[|m| - 1];
    StripTrimmed(s);
    assert ':' !in h && ':' !in m;
    JoinTwo(h, m, ':');
    SplitJoin([h, m], ':');
  }

  /** "H:MM" written as `str(H) + ':' + str(MM)` for any integer hour and
      minute gives 60 * H + MM minutes; no range check is made on either
      part, only the timedelta limit. */
  lemma ParseTimeValue(hour: int, minute: int)
    ensures var minutes := 60 * hour + minute;
      ParseTime(Decimal(hour) + ":" + Decimal(minute))
      == if InTimedeltaRange(minutes) then Success(minutes) else Failure(OutOfRange(minutes))
  {
    var h, m := Decimal(hour), Decimal(minute);
    TimeTextSplits(hour, minute);
    ParseTimeParts(h + ":" + m, h, m);
    ParseIntOfDecimal(hour);
    ParseIntOfDecimal(minute);
    TimeOfValues(h, m, hour, minute);
  }

  /** "H:M" with whitespace around it splits into the hour and the minute
      text when neither part holds whitespace at its outer end nor a ':'. */
  lemma TimeTextPadded(lead: string, h: string, m: string, trail: string)
    requires AllSpace(lead) && AllSpace(trail)
    requires h != [] && !IsSpace(h[0]) && ':' !in h
    requires m != [] && !IsSpace(m[|m| - 1]) && ':' !in m
    ensures Split(Strip(lead + h + ":" + m + trail), ':') == [h, m]
  {
    var t := h + ":" + m;
    assert t[0] == h[0] && t[|t| - 1] == m[|m| - 1];
    assert lead + h + ":" + m + trail == lead + t + trail;
    StripPadded(lead, t, trail);
    SplitPair(h, m, ':');
  }

  lemma TimeOfDigits(h: string, m: string)
    requires IsPlainDigits(h) && IsPlainDigits(m)
    ensures var minutes := 60 * DigitsValue(h) + DigitsValue(m);
      TimeOf(h, m) == if InTimedeltaRange(minutes) then Success(minutes) else Failure(OutOfRange(minutes))
  {
    var hour, minute := DigitsValue(h), DigitsValue(m);
    ParseIntPlain(h);
    ParseIntPlain(m);
    TimeOfValues(h, m, hour, minute);
  }

  /** A time of plain digits, "H:M" with any number of leading zeros in
      either part and any whitespace around it, gives 60 * H + M minutes,
      again with only the timedelta limit checked. */
  lemma ParseTimeDigits(lead: string, h: string, m: string, trail: string)
    requires AllSpace(lead) && AllSpace(trail)
    requires IsPlainDigits(h) && IsPlainDigits(m)
    ensures var minutes := 60 * DigitsValue(h) + DigitsValue(m);
      ParseTime(lead + h + ":" + m + trail)
      == if InTimedeltaRange(minutes) then Success(minutes) else Failure(OutOfRange(minutes))
  {
    assert IsDigit(h[0]) && IsDigit(m[|m| - 1]);
    TimeTextPadded(lead, h, m, trail);
    ParseTimeParts(lead + h + ":" + m + trail, h, m);
    TimeOfDigits(h, m);
  }

  /** An information separator inside the hour makes `int()` fail, though
      `strip()` would have removed it from the ends of the time column. */
  lemma ParseTimeSeparatorInside()
    ensures ParseTime("7\U{1F}:30") == Failure(NotInteger("7\U{1F}"))
  {
    var h := "7\U{1F}";
    StripTrimmed("7\U{1F}:30");
    SplitPair(h, "30", ':');
    assert h + [':'] + "30" == "7\U{1F}:30";
    assert IsInfoSeparator(h[1]);
    ParseTimeParts("7\U{1F}:30", h, "30");
  }

  /** The same separator around the time column is stripped away. */
  lemma ParseTimeSeparatorAround()
    ensures ParseTime("\U{1F}7:05\U{1F}") == Success(425)
  {
    var sep := "\U{1F}";
    assert IsSpace(sep[0]);
    assert DigitsValue("05") == 5 && DigitsValue("7") == 7;
    ParseTimeDigits(sep, "7", "05", sep);
    assert sep + "7" + ":" + "05" + sep == "\U{1F}7:05\U{1F}";
  }

  /** The time column must hold exactly one ':'; otherwise the parse fails
      and reports how many parts the split produced. Both directions. */
  lemma ParseTimeShape(field: string)
    ensures (ParseTime(field).Failure? && ParseTime(field).error.TimeShape?)
            <==> Count(field, ':') != 1
    ensures ParseTime(field).Failure? && ParseTime(field).error.TimeShape? ==>
              ParseTime(field).error.parts == Count(field, ':') + 1
  {
    CountStrip(field, ':');
    SplitCount(Strip(field), ':');
  }

  /** A character that can be part of no integer (not a digit, sign,
      underscore, whitespace or the ':' separator) makes the time fail. */
  lemma ParseTimeRejectsNonNumeral(field: string, i: int)
    requires 0 <= i < |field|
    requires !IsSpace(field[i]) && field[i] != ':' && !IsNumeral(field[i])
    ensures ParseTime(field).Failure?
  {
    var t := Strip(field);
    var parts := Split(t, ':');
    if |parts| == 2 {
      var c := field[i];
      StripKeeps(field, i);
      SplitPieces(t, ':');
      assert parts[1..] == [parts[1]];
      assert t == parts[0] + [':'] + parts[1];
      var k :| 0 <= k < |t| && t[k] == c;
      var j := if k < |parts[0]| then 0 else 1;
      var p := parts[j];
      var q :| 0 <= q < |p| && p[q] == c;
      StripKeeps(p, q);
      if ParseInt(p).Some? {
        ParseIntNumeral(p);
      }
    }
  }

  /** A parse that succeeds stored the stripped second field. */
  lemma ParsedDescription(row: string)
    requires ParseEntry(row).Success?
    ensures ParseEntry(row).value.description == Strip(Split(row, ',')[1])
  {
  }

  lemma ParseEntryFields(row: string, time: string, desc: string)
    requires Split(row, ',') == [time, desc]
    ensures ParseEntry(row)
            == if ParseTime(time).Success? then Success(Entry(ParseTime(time).value, Strip(desc)))
               else Failure(ParseTime(time).error)
  {
  }

  /** A row "time,desc" parses exactly as its time column does, and on
      success stores the description stripped. */
  lemma ParseEntryOfFields(time: string, desc: string)
    requires ',' !in time && ',' !in desc
    ensures ParseEntry(time + "," + desc)
            == if ParseTime(time).Success? then Success(Entry(ParseTime(time).value, Strip(desc)))
               else Failure(ParseTime(time).error)
  {
    SplitPair(time, desc, ',');
    ParseEntryFields(time + "," + desc, time, desc);
  }

  lemma SplitTimeExample()
    ensures Split(Strip("7:30"), ':') == ["7", "30"]
  {
    StripTrimmed("7:30");
    SplitPair("7", "30", ':');
    assert "7" + [':'] + "30" == "7:30";
  }

  lemma ParseIntSeven()
    ensures ParseInt("7") == Some(7)
  {
    ParseIntOfDecimal(7);
    assert Decimal(7) == "7";
  }

  lemma ParseIntThirty()
    ensures ParseInt("30") == Some(30)
  {
    ParseIntOfDecimal(30);
    assert Decimal(30) == "30";
  }

  /** The time of test_services.py:10. */
  lemma ParseTimeExample()
    ensures ParseTime("7:30") == Success(450)
  {
    SplitTimeExample();
    ParseIntSeven();
    ParseIntThirty();
    ParseTimeParts("7:30", "7", "30");
    TimeOfValues("7", "30", 7, 30);
  }

  /** The stored description is the second field with only its surrounding
      whitespace removed: it is a slice of that field, whitespace lies on
      either side of it, and its inner text (any ':' included) is kept. */
  lemma DescriptionIsTrimmedField(row: string)
    requires ParseEntry(row).Success?
    ensures var field := Split(row, ',')[1];
      var d := ParseEntry(row).value.description;
      var n := |field| - |LStrip(field)|;
      Trimmed(d) && 0 <= n && n + |d| <= |field| && d == field[n..n + |d|]
      && AllSpace(field[..n]) && AllSpace(field[n + |d|..])
  {
    ParsedDescription(row);
    StripSplits(Split(row, ',')[1]);
    StripIsTrimmed(Split(row, ',')[1]);
  }

  /** Every character of the second field other than whitespace is kept in
      the stored description as many times as it occurs there; a ':' inside
      the description in particular is kept. */
  lemma DescriptionKeepsText(row: string)
    requires ParseEntry(row).Success?
    ensures forall c :: !IsSpace(c) ==>
              Count(ParseEntry(row).value.description, c) == Count(Split(row, ',')[1], c)
  {
    ParsedDescription(row);
    forall c | !IsSpace(c)
      ensures Count(ParseEntry(row).value.description, c) == Count(Split(row, ',')[1], c)
    {
      CountStrip(Split(row, ',')[1], c);
    }
  }

  // The sample rows of test_services.py are written below as concatenations
  // of short pieces of text, because the verifier unfolds functions such as
  // `Strip` and `Contains` eagerly on a long string literal and runs out of
  // resources; the same holds for the descriptions classified further down,
  // which are lower-cased piece by piece and read through separate lemmas.

  /** The row of test_services.py:8: without a comma it is refused, and the
      failure reports a single field. */
  lemma ParseEntryNoComma(row: string)
    requires row == "7:30 AI " + "recommenda" + "tion inves" + "tigate on " + "Kourosh"
    ensures ParseEntry(row) == Failure(FieldCount(1))
  {
    CountAbsent(row, ',');
    FieldCountDecides(row);
  }

  /** The description field of test_services.py:10 strips to the
      description the test expects. */
  lemma StatusRowDescription(desc: string)
    requires desc == " " + "AI recomme" + "ndation in" + "vestigate " + "on Kourosh"
    ensures Strip(desc) == "AI recomme" + "ndation in" + "vestigate " + "on Kourosh"
  {
    var text := "AI recomme" + "ndation in" + "vestigate " + "on Kourosh";
    assert desc == " " + text + [];
    StripPadded(" ", text, []);
  }

  /** The row of test_services.py:10, given by its three fields: the persons
      field is dropped and the row parses to 7:30 and the stripped
      description. */
  lemma ParseEntryWithPersons(time: string, desc: string, persons: string)
    requires time == "7:30" && persons == " Serge"
    requires desc == " " + "AI recomme" + "ndation in" + "vestigate " + "on Kourosh"
    ensures ParseEntry(time + "," + desc + "," + persons)
            == Success(Entry(450, "AI recomme" + "ndation in" + "vestigate " + "on Kourosh"))
  {
    StatusRowDescription(desc);
    PersonsIgnored(time, desc, persons);
    ParseTimeExample();
    ParseEntryOfFields(time, desc);
  }

  // ---------------------------------------------------------------------------
  // Classifying a description

  /** The keyword table of `_get_category`, in declaration order; earlier
      entries take precedence. */
  const CategoryRules: seq<(string, string)> := [
    ("investigat", "Investigation"),
    ("meet", "Communication"),
    ("communicat", "Communication"),
    ("discus", "Discussion"),
    ("pair", "Pairing"),
    ("daily", "Daily Works")
  ]

  /** Rule `i` is the first rule whose keyword occurs in `text`. */
  predicate IsFirstMatch(rules: seq<(string, string)>, text: string, i: int)
  {
    0 <= i < |rules| && Contains(text, rules[i].0)
    && forall j :: 0 <= j < i ==> !Contains(text, rules[j].0)
  }

  /** Ordered first-match-wins lookup: the label of the first rule whose
      keyword is a substring of `text`, or None when no keyword occurs. */
  function FirstMatch(rules: seq<(string, string)>, text: string): (r: Option<string>)
    ensures r.None? <==> forall i :: 0 <= i < |rules| ==> !Contains(text, rules[i].0)
    ensures r.Some? ==> exists i :: IsFirstMatch(rules, text, i) && r.value == rules[i].1
  {
    if rules == [] then None
    else if Contains(text, rules[0].0) then
      assert IsFirstMatch(rules, text, 0);
      Some(rules[0].1)
    else
      var r := FirstMatch(rules[1..], text);
      assert forall i :: 1 <= i < |rules| ==> rules[i] == rules[1..][i - 1];
      if r.Some? then
        var i :| IsFirstMatch(rules[1..], text, i) && r.value == rules[1..][i].1;
        assert IsFirstMatch(rules, text, i + 1);
        r
      else r
  }

  /** The converse of FirstMatch's contract: when rule `k` is the first rule
      whose keyword occurs, its label is the result. */
  lemma FirstMatchIs(rules: seq<(string, string)>, text: string, k: int)
    requires IsFirstMatch(rules, text, k)
    ensures FirstMatch(rules, text) == Some(rules[k].1)
  {
    var r := FirstMatch(rules, text);
    var i :| IsFirstMatch(rules, text, i) && r.value == rules[i].1;
    assert !(i < k) && !(k < i);
  }

  /** `_get_category(description)`: the table scanned against the lower-cased
      description. */
  function Category(description: string): Option<string>
  {
    FirstMatch(CategoryRules, Lower(description))
  }

  /** Rule order is precedence: on a table made of two parts, a match in the
      first part hides every rule of the second. */
  lemma {:induction false} FirstMatchAppend(a: seq<(string, string)>, b: seq<(string, string)>, text: string)
    ensures FirstMatch(a + b, text) == if FirstMatch(a, text).Some? then FirstMatch(a, text) else FirstMatch(b, text)
  {
    if a == [] {
      assert a + b == b;
    } else {
      assert (a + b)[0] == a[0];
      assert (a + b)[1..] == a[1..] + b;
      FirstMatchAppend(a[1..], b, text);
    }
  }

  // The classifications of test_services.py:31-39, each stated for a
  // parameter equal to the description, written in short pieces. For each,
  // a first lemma lower-cases the description piece by piece, a second reads
  // off the lower-cased text the few facts the scan needs (characters it
  // lacks, where a keyword's rarest character sits, where the matching
  // keyword starts), and the last runs the table over those facts.

  lemma LowerFour(a: string, b: string, c: string, e: string)
    ensures Lower(a + b + c + e) == Lower(a) + Lower(b) + Lower(c) + Lower(e)
  {
    LowerAppend(a + b + c, e);
    LowerAppend(a + b, c);
    LowerAppend(a, b);
  }

  lemma InvestigateLower(d: string)
    requires d == "AI recomme" + "ndation in" + "vestigate " + "on Kourosh"
    ensures Lower(d) == "ai recomme" + "ndation in" + "vestigate " + "on kourosh"
  {
    LowerFour("AI recomme", "ndation in", "vestigate ", "on Kourosh");
    assert Lower("AI recomme") == "ai recomme";
    assert Lower("ndation in") == "ndation in";
    assert Lower("vestigate ") == "vestigate ";
    assert Lower("on Kourosh") == "on kourosh";
  }

  lemma InvestigateFacts(t: string)
    requires t == "ai recomme" + "ndation in" + "vestigate " + "on kourosh"
    ensures OccursAt(t, "investigat", 18)
  {
  }

  lemma CategoryInvestigate(d: string)
    requires d == "AI recomme" + "ndation in" + "vestigate " + "on Kourosh"
    ensures Category(d) == Some("Investigation")
  {
    InvestigateLower(d);
    var t := Lower(d);
    InvestigateFacts(t);
    FirstMatchIs(CategoryRules, t, 0);
  }

  lemma MeetingLower(d: string)
    requires d == "DevOps Dai" + "ly Meeting"
    ensures Lower(d) == "devops dai" + "ly meeting"
  {
    LowerAppend("DevOps Dai", "ly Meeting");
    assert Lower("DevOps Dai") == "devops dai";
    assert Lower("ly Meeting") == "ly meeting";
  }

  lemma MeetingFacts(t: string)
    requires t == "devops dai" + "ly meeting"
    ensures forall i :: 0 <= i < |t| && t[i] == 'v' ==> i in {2}
    ensures !OccursAt(t, "investigat", 0) && OccursAt(t, "meet", 13)
  {
    assert t[0] != 'i';
  }

  /** "daily" occurs too, but "meet" comes first in the table. */
  lemma CategoryMeeting(d: string)
    requires d == "DevOps Dai" + "ly Meeting"
    ensures Category(d) == Some("Communication")
  {
    MeetingLower(d);
    var t := Lower(d);
    MeetingFacts(t);
    MissingExcept(t, "investigat", 2, {2});
    FirstMatchIs(CategoryRules, t, 1);
  }

  lemma DiscussLower(d: string)
    requires d == "Discuss on" + " Source co" + "llection"
    ensures Lower(d) == "discuss on" + " source co" + "llection"
  {
    LowerAppend("Discuss on" + " Source co", "llection");
    LowerAppend("Discuss on", " Source co");
    assert Lower("Discuss on") == "discuss on";
    assert Lower(" Source co") == " source co";
    assert Lower("llection") == "llection";
  }

  lemma DiscussFacts(t: string)
    requires t == "discuss on" + " source co" + "llection"
    ensures 'v' !in t && 'm' !in t && OccursAt(t, "discus", 0)
  {
  }

  lemma CategoryDiscuss(d: string)
    requires d == "Discuss on" + " Source co" + "llection"
    ensures Category(d) == Some("Discussion")
  {
    DiscussLower(d);
    var t := Lower(d);
    DiscussFacts(t);
    MissingChar(t, "investigat", 2);
    MissingChar(t, "meet", 0);
    MissingChar(t, "communicat", 2);
    FirstMatchIs(CategoryRules, t, 3);
  }

  lemma CommunicationLower(d: string)
    requires d == "Email Stat" + "us Test & " + "communicat" + "ion"
    ensures Lower(d) == "email stat" + "us test & " + "communicat" + "ion"
  {
    LowerFour("Email Stat", "us Test & ", "communicat", "ion");
    assert Lower("Email Stat") == "email stat";
    assert Lower("us Test & ") == "us test & ";
    assert Lower("communicat") == "communicat";
    assert Lower("ion") == "ion";
  }

  lemma CommunicationFacts(t: string)
    requires t == "email stat" + "us test & " + "communicat" + "ion"
    ensures 'v' !in t
    ensures forall i :: 0 <= i < |t| && t[i] == 'm' ==> i in {1, 22, 23}
    ensures forall j :: j in {1, 22, 23} ==> !OccursAt(t, "meet", j)
    ensures OccursAt(t, "communicat", 20)
  {
    forall j | j in {1, 22, 23}
      ensures !OccursAt(t, "meet", j)
    {
      assert t[j..j + 4][1] == t[j + 1];
    }
  }

  /** The scan over the facts of CommunicationFacts: "investigat" and
      "meet" are absent, "communicat" is present. */
  lemma CommunicationScan(t: string)
    requires 'v' !in t
    requires forall i :: 0 <= i < |t| && t[i] == 'm' ==> i in {1, 22, 23}
    requires forall j :: j in {1, 22, 23} ==> !OccursAt(t, "meet", j)
    requires OccursAt(t, "communicat", 20)
    ensures IsFirstMatch(CategoryRules, t, 2)
  {
    MissingChar(t, "investigat", 2);
    MissingExcept(t, "meet", 0, {1, 22, 23});
  }

  lemma CategoryCommunication(d: string)
    requires d == "Email Stat" + "us Test & " + "communicat" + "ion"
    ensures Category(d) == Some("Communication")
  {
    CommunicationLower(d);
    var t := Lower(d);
    CommunicationFacts(t);
    CommunicationScan(t);
    FirstMatchIs(CategoryRules, t, 2);
  }

  lemma PairingLower(d: string)
    requires d == "Pairing on" + " Other Sou" + "rce Settin" + "g up"
    ensures Lower(d) == "pairing on" + " other sou" + "rce settin" + "g up"
  {
    LowerFour("Pairing on", " Other Sou", "rce Settin", "g up");
    assert Lower("Pairing on") == "pairing on";
    assert Lower(" Other Sou") == " other sou";
    assert Lower("rce Settin") == "rce settin";
    assert Lower("g up") == "g up";
  }

  lemma PairingFacts(t: string)
    requires t == "pairing on" + " other sou" + "rce settin" + "g up"
    ensures 'v' !in t && 'm' !in t && 'd' !in t && OccursAt(t, "pair", 0)
  {
  }

  lemma CategoryPairing(d: string)
    requires d == "Pairing on" + " Other Sou" + "rce Settin" + "g up"
    ensures Category(d) == Some("Pairing")
  {
    PairingLower(d);
    var t := Lower(d);
    PairingFacts(t);
    MissingChar(t, "investigat", 2);
    MissingChar(t, "meet", 0);
    MissingChar(t, "communicat", 2);
    MissingChar(t, "discus", 0);
    FirstMatchIs(CategoryRules, t, 4);
  }

  lemma DiscussingLower(d: string)
    requires d == "New Featur" + "e on Cente" + "r discussi" + "ng"
    ensures Lower(d) == "new featur" + "e on cente" + "r discussi" + "ng"
  {
    LowerFour("New Featur", "e on Cente", "r discussi", "ng");
    assert Lower("New Featur") == "new featur";
    assert Lower("e on Cente") == "e on cente";
    assert Lower("r discussi") == "r discussi";
    assert Lower("ng") == "ng";
  }

  lemma DiscussingFacts(t: string)
    requires t == "new featur" + "e on cente" + "r discussi" + "ng"
    ensures 'v' !in t && 'm' !in t && OccursAt(t, "discus", 22)
  {
  }

  /** "discus" matches inside "discussing". */
  lemma CategoryDiscussing(d: string)
    requires d == "New Featur" + "e on Cente" + "r discussi" + "ng"
    ensures Category(d) == Some("Discussion")
  {
    DiscussingLower(d);
    var t := Lower(d);
    DiscussingFacts(t);
    MissingChar(t, "investigat", 2);
    MissingChar(t, "meet", 0);
    MissingChar(t, "communicat", 2);
    FirstMatchIs(CategoryRules, t, 3);
  }

  lemma DailyLower(d: string)
    requires d == "Compose da" + "ily Report"
    ensures Lower(d) == "compose da" + "ily report"
  {
    LowerAppend("Compose da", "ily Report");
    assert Lower("Compose da") == "compose da";
    assert Lower("ily Report") == "ily report";
  }

  lemma DailyFacts(t: string)
    requires t == "compose da" + "ily report"
    ensures 'v' !in t && 'u' !in t
    ensures forall i :: 0 <= i < |t| && t[i] == 'm' ==> i in {2}
    ensures !OccursAt(t, "meet", 2)
    ensures forall i :: 0 <= i < |t| && t[i] == 'p' ==> i in {3, 16}
    ensures !OccursAt(t, "pair", 3) && !OccursAt(t, "pair", 16)
    ensures OccursAt(t, "daily", 8)
  {
    assert t[3..7][1] == t[4] && t[16..20][1] == t[17];
  }

  /** The scan over the facts of DailyFacts: the first five keywords are
      absent, "daily" is present. */
  lemma DailyScan(t: string)
    requires 'v' !in t && 'u' !in t
    requires forall i :: 0 <= i < |t| && t[i] == 'm' ==> i in {2}
    requires !OccursAt(t, "meet", 2)
    requires forall i :: 0 <= i < |t| && t[i] == 'p' ==> i in {3, 16}
    requires !OccursAt(t, "pair", 3) && !OccursAt(t, "pair", 16)
    requires OccursAt(t, "daily", 8)
    ensures IsFirstMatch(CategoryRules, t, 5)
  {
    MissingChar(t, "investigat", 2);
    MissingExcept(t, "meet", 0, {2});
    MissingChar(t, "communicat", 4);
    MissingChar(t, "discus", 4);
    MissingExcept(t, "pair", 0, {3, 16});
  }

  lemma CategoryDaily(d: string)
    requires d == "Compose da" + "ily Report"
    ensures Category(d) == Some("Daily Works")
  {
    DailyLower(d);
    var t := Lower(d);
    DailyFacts(t);
    DailyScan(t);
    FirstMatchIs(CategoryRules, t, 5);
  }

  lemma BreakLower(d: string)
    requires d == "take a " + "break"
    ensures Lower(d) == "take a " + "break"
  {
    LowerAppend("take a ", "break");
    assert Lower("take a ") == "take a ";
    assert Lower("break") == "break";
  }

  lemma BreakFacts(t: string)
    requires t == "take a " + "break"
    ensures 'v' !in t && 'm' !in t && 'd' !in t && 'p' !in t
  {
  }

  /** No keyword occurs and there is no default label: the scan falls off the
      end (test_services.py:38 expects 'Break', from another class). */
  lemma CategoryBreak(d: string)
    requires d == "take a " + "break"
    ensures Category(d) == None
  {
    BreakLower(d);
    var t := Lower(d);
    BreakFacts(t);
    MissingChar(t, "investigat", 2);
    MissingChar(t, "meet", 0);
    MissingChar(t, "communicat", 2);
    MissingChar(t, "discus", 0);
    MissingChar(t, "pair", 0);
    MissingChar(t, "daily", 0);
  }

  lemma UnknownLower(d: string)
    requires d == "not exist " + "category"
    ensures Lower(d) == "not exist " + "category"
  {
    LowerAppend("not exist ", "category");
    assert Lower("not exist ") == "not exist ";
    assert Lower("category") == "category";
  }

  lemma UnknownFacts(t: string)
    requires t == "not exist " + "category"
    ensures 'v' !in t && 'm' !in t && 'd' !in t && 'p' !in t
  {
  }

  /** As above; test_services.py:39 expects 'Tasks', which this table never
      produces. */
  lemma CategoryUnknown(d: string)
    requires d == "not exist " + "category"
    ensures Category(d) == None
  {
    UnknownLower(d);
    var t := Lower(d);
    UnknownFacts(t);
    MissingChar(t, "investigat", 2);
    MissingChar(t, "meet", 0);
    MissingChar(t, "communicat", 2);
    MissingChar(t, "discus", 0);
    MissingChar(t, "pair", 0);
    MissingChar(t, "daily", 0);
  }

  // ---------------------------------------------------------------------------
  // The row object

  class DailyLogRow {
    var row: string
    /** `start_time`, in minutes since midnight; None until parsed. */
    var startTime: Option<int>
    var description: Option<string>
    var status: string
    var date: Date
    /** `day`: the weekday abbreviation; None until parsed. */
    var day: Option<string>

    /** The parsed fields are either all unset or all set, and the day then
        names the weekday of the date. */
    predicate Consistent()
      reads this
    {
      (startTime.None? && description.None? && day.None?)
      || (startTime.Some? && description.Some? && day == Some(DayAbbr[date.weekday]))
    }

    /** `__init__`: keeps the raw row and the parsed date; nothing parsed yet;
        the status is always 'DONE'. */
    constructor (row: string, date: Date)
      ensures this.row == row && this.date == date
      ensures startTime == None && description == None && day == None
      ensures status == "DONE"
      ensures Consistent()
    {
      this.row := row;
      startTime := None;
      description := None;
      status := "DONE";
      this.date := date;
      day := None;
    }

    /** `parse()`: on success stores the start time, the description and the
        weekday; on failure raises before any field is assigned, so nothing
        changes. The raw row, the status and the date are never touched. */
    method Parse() returns (outcome: Result<Entry, ParseError>)
      modifies this
      ensures outcome == ParseEntry(row)
      ensures row == old(row) && status == old(status) && date == old(date)
      ensures outcome.Success? ==>
                startTime == Some(outcome.value.startMinutes)
                && description == Some(outcome.value.description)
                && day == Some(DayAbbr[date.weekday])
      ensures outcome.Failure? ==>
                startTime == old(startTime) && description == old(description) && day == old(day)
      ensures outcome.Success? || old(Consistent()) ==> Consistent()
    {
      var columns := Split(row, ',');
      var timeField: Option<string> := None;
      var descField: Option<string> := None;
      if |columns| == 3 {
        timeField, descField := Some(columns[0]), Some(columns[1]);
      }
      if |columns| == 2 {
        timeField, descField := Some(columns[0]), Some(columns[1]);
      }
      if timeField.None? {
        return Failure(FieldCount(|columns|));
      }
      // Lines 27-29: strip, split on ':', int() twice and the timedelta
      // limit, any of which may raise before a field is assigned.
      var time := ParseTime(timeField.value);
      if time.Failure? {
        return Failure(time.error);
      }
      startTime := Some(time.value);
      description := Some(Strip(descField.value));
      day := Some(DayAbbr[date.weekday]);
      outcome := Success(Entry(time.value, description.value));
    }

    /** `_get_category`: walks the table in order and returns the label of the
        first keyword found in the lower-cased description, None if none is. */
    static method GetCategory(description: string) returns (category: Option<string>)
      ensures category == Category(description)
    {
      var i := 0;
      while i < |CategoryRules|
        invariant 0 <= i <= |CategoryRules|
        invariant FirstMatch(CategoryRules[i..], Lower(description)) == Category(description)
      {
        var (key, value) := CategoryRules[i];
        if Contains(Lower(description), key) {
          return Some(value);
        }
        assert CategoryRules[i..][1..] == CategoryRules[i + 1..];
        i := i + 1;
      }
      return None;
    }
  }

  /** `DailyLog`: a section's date text and its raw rows, stored as given. */
  class DailyLog {
    var date: string
    var rows: seq<string>

    constructor (date: string, rows: seq<string>)
      ensures this.date == date && this.rows == rows
    {
      this.date := date;
      this.rows := rows;
    }
  }
}
