/** The /query endpoint (query_box): normalise the question, take a snapshot of the
    bucket, let the first matching pattern choose an aggregation, and word its result.
    The clock is a parameter (today), and the bucket listing arrives as a value that
    either holds the listed objects with their metadata or the text of the exception
    the storage service raised. */
module QueryEngine {
  import opened Wrappers
  import opened Text
  import opened Calendar
  import opened SizeParser
  import opened Records
  import opened Ranking
  import opened IntentMatcher
  import opened Classifier
  import opened Tallies

  /** An exception raised while answering, after the snapshot was taken. */
  datatype Failure =
    | BadSize(e: ParseError)   // parse_size rejected the captured literal
    | DateOutOfRange           // today - timedelta(days=N) fell before date.min

  /** str(e) of that exception. */
  function FailureText(f: Failure): string {
    match f
    case BadSize(e) => ErrorMessage(e)
    case DateOutOfRange => "date value out of range"
  }

  /** The JSON reply: the HTTP status and the value of its 'result' field. */
  datatype Response = Response(status: nat, result: string)

  const Fallback := "Sorry, I did not understand your query."

  /** today - timedelta(days=days), as a day ordinal: a failure once it would precede
      0001-01-01. */
  function DaysBefore(today: Date, days: nat): (r: Result<int, Failure>)
    ensures r.Err? <==> days >= Ordinal(today)
    ensures r.Err? ==> r.error == DateOutOfRange
    ensures r.Ok? ==> 1 <= r.value <= Ordinal(today) && r.value + days == Ordinal(today)
  {
    if days >= Ordinal(today) then Err(DateOutOfRange) else Ok(Ordinal(today) - days)
  }

  // The conditions the aggregations count or filter by.

  /** last_modified.date() == today */
  function OnDay(today: Date): FileRecord -> bool {
    (f: FileRecord) => f.modified == today
  }

  /** last_modified.date() >= the date with the given ordinal */
  function Since(ordinal: int): FileRecord -> bool {
    (f: FileRecord) => Ordinal(f.modified) >= ordinal
  }

  /** same year and month as today */
  function InMonth(today: Date): FileRecord -> bool {
    (f: FileRecord) => f.modified.year == today.year && f.modified.month == today.month
  }

  function LargerThanSize(size: nat): FileRecord -> bool {
    (f: FileRecord) => f.size > size
  }

  /** key.endswith('.' + ext) */
  function HasExt(ext: string): FileRecord -> bool {
    (f: FileRecord) => EndsWith(f.key, "." + ext)
  }

  function ExtInMonth(ext: string, today: Date): FileRecord -> bool {
    (f: FileRecord) => EndsWith(f.key, "." + ext) && f.modified.year == today.year && f.modified.month == today.month
  }

  function UploadedBy(user: string): FileRecord -> bool {
    (f: FileRecord) => f.uploader == user
  }

  function UploadedByThisWeek(user: string, today: Date): FileRecord -> bool {
    (f: FileRecord) => f.uploader == user && Ordinal(f.modified) >= WeekStart(today)
  }

  /** "{key} ({size} bytes)". */
  function Entry(f: FileRecord): string {
    f.key + " (" + NatToString(f.size) + " bytes)"
  }

  /** The entries of the listed files, joined with ", "; nothing at all for no files. */
  function RenderList(files: seq<FileRecord>): (r: string)
    ensures r == "" <==> files == []
  {
    var entries := seq(|files|, i requires 0 <= i < |files| => Entry(files[i]));
    assert files != [] ==> entries[0] == Entry(files[0]) && Entry(files[0])[|files[0].key|] == ' ';
    Join(entries, ", ")
  }

  /** The rendering lists the first file and then, after ", ", the rest in their order. */
  lemma RenderListCons(f: FileRecord, rest: seq<FileRecord>)
    ensures RenderList([f] + rest) == Entry(f) + (if rest == [] then "" else ", " + RenderList(rest))
  {
    var files := [f] + rest;
    var entries := seq(|files|, i requires 0 <= i < |files| => Entry(files[i]));
    var tail := seq(|rest|, i requires 0 <= i < |rest| => Entry(rest[i]));
    assert entries == [Entry(f)] + tail;
    assert entries[1..] == tail;
  }

  /** A top-n question that selects no file is answered with the heading alone: "Top 0
      files by size: " for n = 0. */
  lemma TopNothingListed(n: nat, files: seq<FileRecord>, today: Date)
    requires TopN(files, n) == []
    ensures Reply(TopBySize(n), files, today) == Ok("Top " + NatToString(n) + " files by size: ")
  {
    var heading := "Top " + NatToString(n) + " files by size: ";
    assert RenderList(TopN(files, n)) == "";
    assert heading + "" == heading;
  }

  /** "top 0 files taking max storage" is answered "Top 0 files by size: ". */
  lemma TopZeroHeading(files: seq<FileRecord>, today: Date)
    ensures Reply(TopBySize(0), files, today) == Ok("Top 0 files by size: ")
  {
    assert TopN(files, 0) == [];
    TopNothingListed(0, files, today);
    ZeroHeading();
  }

  lemma ZeroHeading()
    ensures "Top " + NatToString(0) + " files by size: " == "Top 0 files by size: "
  {
    assert NatToString(0) == "0";
  }

  /** What query_box computes and words for a recognised question, or the exception it
      raises on the way. */
  function Reply(it: Intent, files: seq<FileRecord>, today: Date): (r: Result<string, Failure>)
    requires it != Unrecognized
    ensures r.Err? ==> it.LargerThan? || it.UploadedInLastDays?
    ensures r.Ok? ==> |r.value| >= 1 && (IsDigit(r.value[0]) || r.value[0] == 'T')
  {
    match it
    case UploadedToday =>
      Ok(NatToString(CountWhere(files, OnDay(today))) + " files were uploaded today.")
    case UploadedInLastDays(days) =>
      var since :- DaysBefore(today, days);
      Ok(NatToString(CountWhere(files, Since(since))) + " files were uploaded in the last "
         + NatToString(days) + " days.")
    case UploadedThisWeek =>
      Ok(NatToString(CountWhere(files, Since(WeekStart(today)))) + " files were uploaded this week.")
    case UploadedThisMonth =>
      Ok(NatToString(CountWhere(files, InMonth(today))) + " files were uploaded this month.")
    case LargerThan(l) =>
      (match ParseSize(LiteralText(l))
       case Err(e) => Err(BadSize(e))
       case Ok(size) =>
         Ok(NatToString(CountWhere(files, LargerThanSize(size))) + " files are larger than "
            + LiteralText(l) + "."))
    case ExtUploadedThisMonth(ext) =>
      Ok(NatToString(CountWhere(files, ExtInMonth(ext, today))) + " " + ext
         + " files were uploaded this month.")
    case TopBySize(n) =>
      Ok("Top " + NatToString(n) + " files by size: " + RenderList(TopN(files, n)))
    case TopByExt(n, ext) =>
      Ok("Top " + NatToString(n) + " " + ext + " files by size: "
         + RenderList(TopN(Filter(files, HasExt(ext)), n)))
    case UploadsBy(user) =>
      Ok(NatToString(CountWhere(files, UploadedBy(user))) + " files uploaded by " + user + ".")
    case TopByUploaderThisWeek(n, user) =>
      Ok("Top " + NatToString(n) + " files uploaded by " + user + " this week: "
         + RenderList(TopN(Filter(files, UploadedByThisWeek(user, today)), n)))
  }

  /** Only two rules can fail: the size rule when parse_size rejects the literal and the
      last-days rule when the window starts before the first date; every reply starts
      with a count or with "Top ". */
  lemma ReplyOutcome(it: Intent, files: seq<FileRecord>, today: Date)
    requires it != Unrecognized
    ensures var r := Reply(it, files, today);
      r.Err? <==>
        (it.LargerThan? && ParseSize(LiteralText(it.literal)).Err?) ||
        (it.UploadedInLastDays? && it.days >= Ordinal(today))
    ensures var r := Reply(it, files, today);
      r.Err? && it.LargerThan? ==> r.error == BadSize(ParseSize(LiteralText(it.literal)).error)
    ensures var r := Reply(it, files, today);
      r.Err? && it.UploadedInLastDays? ==> r.error == DateOutOfRange
    ensures var r := Reply(it, files, today);
      r.Ok? ==> |r.value| >= 1 && (IsDigit(r.value[0]) || r.value[0] == 'T')
  {
  }

  /** The whole of query_box, from the request's 'query' field (None when absent), the
      outcome of listing the bucket and reading each object's metadata, and today's date.
      A failed listing is reported before the question is looked at. */
  function QueryResponse(query: Option<string>, listing: Result<seq<StoredObject>, string>, today: Date): (r: Response)
    ensures r.status == 200 || r.status == 500
    ensures listing.Err? ==> r == Response(500, "Error: " + listing.error)
  {
    var q := Normalize(query.GetOr(""));
    match listing
    case Err(m) => Response(500, "Error: " + m)
    case Ok(objects) =>
      var it := Classify(q);
      if it == Unrecognized then Response(200, Fallback)
      else match Reply(it, Snapshot(objects), today)
        case Ok(text) => Response(200, text)
        case Err(f) => Response(500, "Error: " + FailureText(f))
  }

  /** The fallback sentence is given exactly for questions no pattern recognises. */
  lemma FallbackIffUnrecognized(query: Option<string>, objects: seq<StoredObject>, today: Date)
    ensures QueryResponse(query, Ok(objects), today) == Response(200, Fallback)
        <==> Classify(Normalize(query.GetOr(""))) == Unrecognized
  {
    var it := Classify(Normalize(query.GetOr("")));
    if it != Unrecognized {
      var reply := Reply(it, Snapshot(objects), today);
      ReplyOutcome(it, Snapshot(objects), today);
      if reply.Ok? {
        assert reply.value[0] != Fallback[0];
      }
    }
  }

  /** Once the bucket is listed, a recognised question fails only through parse_size or
      through a last-days window that starts before the first date. */
  lemma ErrorCauses(query: Option<string>, objects: seq<StoredObject>, today: Date)
    ensures var it := Classify(Normalize(query.GetOr("")));
      QueryResponse(query, Ok(objects), today).status == 500 <==>
        (it.LargerThan? && ParseSize(LiteralText(it.literal)).Err?) ||
        (it.UploadedInLastDays? && it.days >= Ordinal(today))
  {
    var it := Classify(Normalize(query.GetOr("")));
    if it != Unrecognized {
      RecognizedResponse(query, objects, today);
      ReplyOutcome(it, Snapshot(objects), today);
    }
  }

  // ---------------------------------------------------------------- the wording

  /** The condition a counting intent counts the snapshot by: None for the top-N intents,
      and for a last-days window or a size literal that fails. */
  function Selection(it: Intent, today: Date): Option<FileRecord -> bool> {
    match it
    case UploadedToday => Some(OnDay(today))
    case UploadedInLastDays(days) =>
      (match DaysBefore(today, days)
       case Ok(since) => Some(Since(since))
       case Err(_) => None)
    case LargerThan(l) =>
      (match ParseSize(LiteralText(l))
       case Ok(size) => Some(LargerThanSize(size))
       case Err(_) => None)
    case UploadedThisWeek => Some(Since(WeekStart(today)))
    case UploadedThisMonth => Some(InMonth(today))
    case ExtUploadedThisMonth(ext) => Some(ExtInMonth(ext, today))
    case UploadsBy(user) => Some(UploadedBy(user))
    case _ => None
  }

  /** The decimal of a count followed by a space-led sentence: the number is the text up to
      the first space, and it reads back as the count. */
  lemma LeadingCount(c: nat, rest: string)
    requires rest != [] && rest[0] == ' '
    ensures var t := NatToString(c) + rest;
      IndexOf(t, ' ') == Some(|NatToString(c)|) && t[..|NatToString(c)|] == NatToString(c)
  {
    var a := NatToString(c);
    var t := a + rest;
    assert t[|a|] == ' ';
    assert forall i :: 0 <= i < |a| ==> t[i] == a[i] && IsDigit(a[i]);
    IndexOfFirst(t, ' ', |a|);
    assert t[..|a|] == a;
  }

  /** Every counting reply begins with its count: the text before the first space is the
      decimal of the number of snapshot records that satisfy the intent's condition. */
  lemma CountReplyReadsBack(it: Intent, files: seq<FileRecord>, today: Date)
    requires Selection(it, today).Some?
    ensures Reply(it, files, today).Ok?
    ensures var t := Reply(it, files, today).value;
      var n := CountWhere(files, Selection(it, today).value);
      IndexOf(t, ' ').Some? && t[..IndexOf(t, ' ').value] == NatToString(n) &&
      DigitsValue(t[..IndexOf(t, ' ').value]) == n
  {
    var n := CountWhere(files, Selection(it, today).value);
    var rest := CountSentence(it, files, today);
    LeadingCount(n, rest);
  }

  /** A counting reply is the count followed by a sentence that starts with a space. */
  lemma CountSentence(it: Intent, files: seq<FileRecord>, today: Date) returns (rest: string)
    requires Selection(it, today).Some?
    ensures rest != [] && rest[0] == ' '
    ensures Reply(it, files, today) == Ok(NatToString(CountWhere(files, Selection(it, today).value)) + rest)
  {
    if it.UploadedInLastDays? {
      rest := LastDaysCountSentence(it, files, today);
    } else if it.LargerThan? {
      rest := LargerCountSentence(it, files, today);
    } else {
      rest := PlainCountSentence(it, files, today);
    }
  }

  /** The last-days rule, once the start of its window exists. */
  lemma LastDaysCountSentence(it: Intent, files: seq<FileRecord>, today: Date) returns (rest: string)
    requires it.UploadedInLastDays? && Selection(it, today).Some?
    ensures rest != [] && rest[0] == ' '
    ensures Reply(it, files, today) == Ok(NatToString(CountWhere(files, Selection(it, today).value)) + rest)
  {
    var since := DaysBefore(today, it.days).value;
    assert Selection(it, today).value == Since(since);
    rest := " files were uploaded in the last " + NatToString(it.days) + " days.";
    LastDaysSentence(it.days, since, files, today);
    var c := NatToString(CountWhere(files, Since(since)));
    assert c + " files were uploaded in the last " + NatToString(it.days) + " days." == c + rest;
  }

  /** The size rule, once parse_size accepts its literal. */
  lemma LargerCountSentence(it: Intent, files: seq<FileRecord>, today: Date) returns (rest: string)
    requires it.LargerThan? && Selection(it, today).Some?
    ensures rest != [] && rest[0] == ' '
    ensures Reply(it, files, today) == Ok(NatToString(CountWhere(files, Selection(it, today).value)) + rest)
  {
    var size := ParseSize(LiteralText(it.literal)).value;
    assert Selection(it, today).value == LargerThanSize(size);
    rest := " files are larger than " + LiteralText(it.literal) + ".";
    LargerSentence(it.literal, size, files, today);
    var c := NatToString(CountWhere(files, LargerThanSize(size)));
    assert c + " files are larger than " + LiteralText(it.literal) + "." == c + rest;
  }

  lemma LastDaysSentence(days: nat, since: int, files: seq<FileRecord>, today: Date)
    requires DaysBefore(today, days) == Ok(since)
    ensures Reply(UploadedInLastDays(days), files, today)
      == Ok(NatToString(CountWhere(files, Since(since))) + " files were uploaded in the last " + NatToString(days) + " days.")
  {
  }

  lemma LargerSentence(l: SizeLiteral, size: nat, files: seq<FileRecord>, today: Date)
    requires ParseSize(LiteralText(l)) == Ok(size)
    ensures Reply(LargerThan(l), files, today)
      == Ok(NatToString(CountWhere(files, LargerThanSize(size))) + " files are larger than " + LiteralText(l) + ".")
  {
  }

  /** The counting rules that always succeed. */
  lemma PlainCountSentence(it: Intent, files: seq<FileRecord>, today: Date) returns (rest: string)
    requires Selection(it, today).Some?
    requires !it.UploadedInLastDays? && !it.LargerThan?
    ensures rest != [] && rest[0] == ' '
    ensures Reply(it, files, today) == Ok(NatToString(CountWhere(files, Selection(it, today).value)) + rest)
  {
    match it
    case UploadedToday =>
      rest := " files were uploaded today.";
    case UploadedThisWeek =>
      rest := " files were uploaded this week.";
    case UploadedThisMonth =>
      rest := " files were uploaded this month.";
    case ExtUploadedThisMonth(ext) =>
      rest := " " + ext + " files were uploaded this month.";
      var c := NatToString(CountWhere(files, ExtInMonth(ext, today)));
      assert c + " " + ext + " files were uploaded this month." == c + rest;
    case UploadsBy(user) =>
      rest := " files uploaded by " + user + ".";
      var c := NatToString(CountWhere(files, UploadedBy(user)));
      assert c + " files uploaded by " + user + "." == c + rest;
  }

  // ---------------------------------------------------------------- the size rule

  /** What parse_size makes of a literal the size pattern captured: without k, m or g the
      trailing b reaches int() and is rejected; with one, the number is read as a float and
      scaled. */
  lemma LiteralSize(l: SizeLiteral)
    requires ValidLiteral(l)
    ensures l.unit == "" ==> ParseSize(LiteralText(l)) == Err(NotAnInt(l.number + "b"))
    ensures l.unit != "" ==> ParseSize(LiteralText(l)) == Scaled(l.number, Multiplier(UnitOf(l.unit[0])))
  {
    var space := if l.spaced then " " else "";
    if l.unit == "" {
      assert LiteralText(l) == l.number + space + "b";
      PlainBytesRejected(l.number, space);
    } else {
      assert LiteralText(l) == l.number + space + Suffix(UnitOf(l.unit[0]));
      ScaledLiteral(l.number, space, UnitOf(l.unit[0]));
    }
  }

  /** How a recognised question is answered once the bucket is listed. */
  lemma RecognizedResponse(query: Option<string>, objects: seq<StoredObject>, today: Date)
    requires Classify(Normalize(query.GetOr(""))) != Unrecognized
    ensures var reply := Reply(Classify(Normalize(query.GetOr(""))), Snapshot(objects), today);
      QueryResponse(query, Ok(objects), today)
        == if reply.Ok? then Response(200, reply.value) else Response(500, "Error: " + FailureText(reply.error))
  {
  }

  /** The size rule on a plain-byte literal fails with parse_size's int() error. */
  lemma PlainBytesReply(l: SizeLiteral, files: seq<FileRecord>, today: Date)
    requires ValidLiteral(l) && l.unit == ""
    ensures Reply(LargerThan(l), files, today) == Err(BadSize(NotAnInt(l.number + "b")))
  {
    LiteralSize(l);
  }

  /** A size question in plain bytes ("larger than 500b") is answered with the int()
      error, never with a count. */
  lemma PlainBytesQuestion(query: Option<string>, objects: seq<StoredObject>, today: Date)
    requires Classify(Normalize(query.GetOr(""))).LargerThan?
    requires Classify(Normalize(query.GetOr(""))).literal.unit == ""
    ensures QueryResponse(query, Ok(objects), today) == Response(500,
      "Error: " + ErrorMessage(NotAnInt(Classify(Normalize(query.GetOr(""))).literal.number + "b")))
  {
    ClassifySpec(Normalize(query.GetOr("")));
    var l := Classify(Normalize(query.GetOr(""))).literal;
    RecognizedResponse(query, objects, today);
    PlainBytesReply(l, Snapshot(objects), today);
  }

  /** A larger threshold never counts more files. */
  lemma LargerMonotone(files: seq<FileRecord>, small: nat, large: nat)
    requires small <= large
    ensures CountWhere(files, LargerThanSize(large)) <= CountWhere(files, LargerThanSize(small))
  {
    CountWhereMonotone(files, LargerThanSize(large), LargerThanSize(small));
  }

  // ---------------------------------------------------------------- the date windows

  /** Files uploaded today are uploaded this week. */
  lemma TodayWithinWeek(files: seq<FileRecord>, today: Date)
    ensures CountWhere(files, OnDay(today)) <= CountWhere(files, Since(WeekStart(today)))
  {
    CountWhereMonotone(files, OnDay(today), Since(WeekStart(today)));
  }

  /** The week starts at most six days back, so it lies inside "the last 6 days". */
  lemma WeekWithinLastSixDays(files: seq<FileRecord>, today: Date)
    requires DaysBefore(today, 6).Ok?
    ensures CountWhere(files, Since(WeekStart(today))) <= CountWhere(files, Since(DaysBefore(today, 6).value))
  {
    CountWhereMonotone(files, Since(WeekStart(today)), Since(DaysBefore(today, 6).value));
  }

  /** A longer look-back never counts fewer files. */
  lemma LastDaysMonotone(files: seq<FileRecord>, today: Date, shorter: nat, longer: nat)
    requires shorter <= longer && DaysBefore(today, longer).Ok?
    ensures DaysBefore(today, shorter).Ok?
    ensures CountWhere(files, Since(DaysBefore(today, shorter).value))
         <= CountWhere(files, Since(DaysBefore(today, longer).value))
  {
    CountWhereMonotone(files, Since(DaysBefore(today, shorter).value), Since(DaysBefore(today, longer).value));
  }

  /** Files uploaded today are inside every last-N-days window. */
  lemma TodayWithinLastDays(files: seq<FileRecord>, today: Date, days: nat)
    requires DaysBefore(today, days).Ok?
    ensures CountWhere(files, OnDay(today)) <= CountWhere(files, Since(DaysBefore(today, days).value))
  {
    CountWhereMonotone(files, OnDay(today), Since(DaysBefore(today, days).value));
  }

  /** Files of one extension uploaded this month are uploaded this month. */
  lemma ExtMonthWithinMonth(files: seq<FileRecord>, ext: string, today: Date)
    ensures CountWhere(files, ExtInMonth(ext, today)) <= CountWhere(files, InMonth(today))
  {
    CountWhereMonotone(files, ExtInMonth(ext, today), InMonth(today));
  }

  // ---------------------------------------------------------------- the uploader rule

  /** The number of listed objects whose uploader metadata, lower-cased, is user. */
  function UploaderTally(objects: seq<StoredObject>, user: string): (n: nat)
    ensures n <= |objects|
  {
    if objects == [] then 0
    else (if Lower(RawUploader(objects[0])) == user then 1 else 0) + UploaderTally(objects[1..], user)
  }

  /** Counting the snapshot by uploader counts the objects by lower-cased metadata. */
  lemma {:induction false} UploaderCountMatches(objects: seq<StoredObject>, user: string)
    ensures CountWhere(Snapshot(objects), UploadedBy(user)) == UploaderTally(objects, user)
  {
    if objects != [] {
      assert Snapshot(objects) == [ToRecord(objects[0])] + Snapshot(objects[1..]);
      assert Snapshot(objects)[1..] == Snapshot(objects[1..]);
      UploaderCountMatches(objects[1..], user);
    }
  }

  /** "How many files are uploaded by U", in any letter case and with U free of
      surrounding whitespace, counts the objects whose uploader metadata equals U up to
      case (when no earlier pattern claims the question). */
  lemma UploaderAnswer(p: string, u: string, objects: seq<StoredObject>, today: Date)
    requires Lower(p) == UploaderLead
    requires u != [] && !IsSpace(u[0]) && !IsSpace(u[|u| - 1])
    requires forall k :: 0 <= k < |u| ==> u[k] != '\n'
    requires forall j :: 0 <= j < 8 ==> Rule(j, Normalize(p + u)).None?
    ensures QueryResponse(Some(p + u), Ok(objects), today) == Response(200,
      NatToString(UploaderTally(objects, Lower(u))) + " files uploaded by " + Lower(u) + ".")
  {
    var q := Normalize(p + u);
    UploaderQuestion(p, u);
    ClassifySpec(q);
    var it := Classify(q);
    assert it != Unrecognized;
    assert RuleOf(it) == 8;
    assert it == UploadsBy(Lower(u));
    UploaderCountMatches(objects, Lower(u));
  }

  // ---------------------------------------------------------------- the extension rules

  /** The extension filter of the top-N-by-extension rule keeps exactly the records that
      count_by_type files under that extension. */
  lemma ExtFilterIsBucket(files: seq<FileRecord>, ext: string)
    requires |ext| >= 1 && AllWordChars(ext)
    ensures forall x :: x in Filter(files, HasExt(ext)) <==> x in files && '.' in x.key && Extension(x.key) == ext
  {
    assert '.' !in ext by {
      assert !IsWordChar('.');
    }
    FilterMembers(files, HasExt(ext));
    forall x | x in files
      ensures HasExt(ext)(x) <==> '.' in x.key && Extension(x.key) == ext
    {
      ExtensionMatchesSuffix(x.key, ext);
    }
  }
}
