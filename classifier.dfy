/** The intent classification of query_box: the question is trimmed and lower-cased
    (app.py:209), then the ten patterns are tried in their fixed order and the first that
    matches decides the intent (app.py:226-288); when none matches the question is not
    understood (app.py:290). */
module Classifier {
  import opened Wrappers
  import opened Text
  import opened IntentMatcher

  /** What a question asks for, with the values its pattern captured. Counts and days are
      int() of the captured digits. */
  datatype Intent =
    | UploadedToday
    | UploadedInLastDays(days: nat)
    | UploadedThisWeek
    | UploadedThisMonth
    | LargerThan(literal: SizeLiteral)
    | ExtUploadedThisMonth(ext: string)
    | TopBySize(n: nat)
    | TopByExt(n: nat, ext: string)
    | UploadsBy(user: string)
    | TopByUploaderThisWeek(n: nat, user: string)
    | Unrecognized

  /** The number of patterns. */
  const RuleCount: nat := 10

  /** The place in the order of app.py:226-288 of the pattern that yields an intent. */
  function RuleOf(it: Intent): (k: nat)
    ensures k <= RuleCount
    ensures k == RuleCount <==> it == Unrecognized
  {
    match it
    case UploadedToday => 0
    case UploadedInLastDays(_) => 1
    case UploadedThisWeek => 2
    case UploadedThisMonth => 3
    case LargerThan(_) => 4
    case ExtUploadedThisMonth(_) => 5
    case TopBySize(_) => 6
    case TopByExt(_, _) => 7
    case UploadsBy(_) => 8
    case TopByUploaderThisWeek(_, _) => 9
    case Unrecognized => 10
  }

  /** What the patterns' character classes guarantee about the captured values. */
  predicate WellFormedIntent(it: Intent) {
    match it
    case LargerThan(l) => ValidLiteral(l)
    case ExtUploadedThisMonth(ext) => |ext| >= 1 && AllWordChars(ext)
    case TopByExt(_, ext) => |ext| >= 1 && AllWordChars(ext)
    case TopByUploaderThisWeek(_, user) => |user| >= 1 && AllWordChars(user)
    case _ => true
  }

  /** The k-th pattern applied to the normalised question: the intent it yields, if it
      matches. */
  function Rule(k: nat, q: string): (r: Option<Intent>)
    requires k < RuleCount
    ensures r.Some? ==> RuleOf(r.value) == k && WellFormedIntent(r.value)
  {
    match k
    case 0 => if Search(q, TodayAt).Some? then Some(UploadedToday) else None
    case 1 =>
      (match Search(q, LastDaysAt)
       case None => None
       case Some(f) => Some(UploadedInLastDays(DigitsValue(f.value))))
    case 2 => if Search(q, WeekAt).Some? then Some(UploadedThisWeek) else None
    case 3 => if Search(q, MonthAt).Some? then Some(UploadedThisMonth) else None
    case 4 =>
      (match Search(q, LargerAt)
       case None => None
       case Some(f) => Some(LargerThan(f.value)))
    case 5 =>
      (match Search(q, ExtMonthAt)
       case None => None
       case Some(f) => Some(ExtUploadedThisMonth(f.value)))
    case 6 =>
      (match Search(q, TopStorageAt)
       case None => None
       case Some(f) => Some(TopBySize(DigitsValue(f.value))))
    case 7 =>
      (match Search(q, TopExtAt)
       case None => None
       case Some(f) => Some(TopByExt(DigitsValue(f.value.0), f.value.1)))
    case 8 =>
      (match UploaderAt(q)
       case None => None
       case Some(c) => Some(UploadsBy(Strip(c))))
    case _ =>
      (match Search(q, TopUploaderWeekAt)
       case None => None
       case Some(f) => Some(TopByUploaderThisWeek(DigitsValue(f.value.0), f.value.1)))
  }

  /** The first pattern from the k-th on that matches. */
  function FirstFrom(q: string, k: nat): Intent
    requires k <= RuleCount
    decreases RuleCount - k
  {
    if k == RuleCount then Unrecognized
    else match Rule(k, q)
      case Some(it) => it
      case None => FirstFrom(q, k + 1)
  }

  /** The patterns from the k-th on decide as the first of them that matches. */
  lemma {:induction false} FirstFromSpec(q: string, k: nat)
    requires k <= RuleCount
    ensures WellFormedIntent(FirstFrom(q, k))
    ensures FirstFrom(q, k) == Unrecognized <==> forall j :: k <= j < RuleCount ==> Rule(j, q).None?
    ensures var r := FirstFrom(q, k);
      r != Unrecognized ==>
        k <= RuleOf(r) < RuleCount && Rule(RuleOf(r), q) == Some(r) &&
        forall j :: k <= j < RuleOf(r) ==> Rule(j, q).None?
    decreases RuleCount - k
  {
    if k < RuleCount && Rule(k, q).None? {
      FirstFromSpec(q, k + 1);
    }
  }

  /** The intent of a normalised question. */
  function Classify(q: string): (r: Intent)
    ensures WellFormedIntent(r)
    ensures r != Unrecognized ==> Rule(RuleOf(r), q) == Some(r)
  {
    FirstFromSpec(q, 0);
    FirstFrom(q, 0)
  }

  /** First match wins: the intent is the one of the first pattern that matches, and the
      question is unrecognised exactly when no pattern matches. */
  lemma ClassifySpec(q: string)
    ensures WellFormedIntent(Classify(q))
    ensures Classify(q) == Unrecognized <==> forall j :: 0 <= j < RuleCount ==> Rule(j, q).None?
    ensures var r := Classify(q);
      r != Unrecognized ==>
        Rule(RuleOf(r), q) == Some(r) && forall j :: 0 <= j < RuleOf(r) ==> Rule(j, q).None?
  {
    FirstFromSpec(q, 0);
  }

  /** data.get('query', '').strip().lower(). */
  function Normalize(raw: string): (q: string)
    ensures IsLowerText(q)
  {
    Lower(Strip(raw))
  }

  // ---------------------------------------------------------------- the shadowed rule

  /** A match of the month pattern at any position lets the month rule fire. */
  lemma MonthRuleFires(q: string, p: nat)
    requires MonthAt(q, p).Some?
    ensures Rule(3, q).Some?
  {
    var pf := FilePhraseAt(q, p, "were ").value;
    assert StartsAt(q, p, pf);
    assert p <= |q|;
    SearchSpec(q, MonthAt);
  }

  /** Every question the per-extension month rule matches is answered by the general month
      rule or an earlier one, so that rule never decides (app.py:242-256). */
  lemma ExtMonthShadowed(q: string)
    requires Rule(5, q).Some?
    ensures RuleOf(Classify(q)) <= 3
  {
    ClassifySpec(q);
    var f := Search(q, ExtMonthAt).value;
    ExtMonthImpliesMonth(q, f.pos);
    MonthRuleFires(q, f.pos + |HowMany| + |f.value| + 1);
  }

  lemma ExtMonthNeverAnswers(q: string)
    ensures !Classify(q).ExtUploadedThisMonth?
  {
    ClassifySpec(q);
    if Classify(q).ExtUploadedThisMonth? {
      ExtMonthShadowed(q);
    }
  }

  // ---------------------------------------------------------------- questions without "file"

  lemma SubAt(q: string, i: nat, w: string, j: nat, v: string)
    requires StartsAt(q, i, w) && j + |v| <= |w| && w[j..j + |v|] == v
    ensures StartsAt(q, i + j, v)
  {
    assert q[i..i + |w|] == w;
    forall t | 0 <= t < |v| ensures q[i + j + t] == v[t] {
      assert q[i..i + |w|][j + t] == w[j + t] == v[t];
    }
    assert q[i + j..i + j + |v|] == v;
  }

  lemma PhraseFile(q: string, i: nat, verb: string)
    requires FilePhraseAt(q, i, verb).Some?
    ensures Contains(q, "file")
  {
    var pf := FilePhraseAt(q, i, verb).value;
    SubAt(q, i, pf, 0, "file");
  }

  lemma ThenFile(q: string, i: nat, verb: string, tail: string)
    requires PhraseThen(q, i, verb, tail)
    ensures Contains(q, "file")
  {
    PhraseThenFile(q, i, verb, tail);
  }

  lemma LastDaysFile(q: string)
    requires Search(q, LastDaysAt).Some?
    ensures Contains(q, "file")
  {
    var f := Search(q, LastDaysAt).value;
    assert LastDaysAt(q, f.pos).Some?;
    PhraseFile(q, f.pos, "were ");
  }

  lemma LargerFile(q: string)
    requires Search(q, LargerAt).Some?
    ensures Contains(q, "file")
  {
    var f := Search(q, LargerAt).value;
    assert LargerAt(q, f.pos).Some?;
    PhraseFile(q, f.pos, "are ");
  }

  lemma ExtMonthFile(q: string)
    requires Search(q, ExtMonthAt).Some?
    ensures Contains(q, "file")
  {
    var f := Search(q, ExtMonthAt).value;
    ExtMonthImpliesMonth(q, f.pos);
    var j := f.pos + |HowMany| + |f.value| + 1;
    assert MonthAt(q, j).Some?;
    ThenFile(q, j, "were ", "uploaded this month");
  }

  lemma TopStorageFile(q: string)
    requires Search(q, TopStorageAt).Some?
    ensures Contains(q, "file")
  {
    var f := Search(q, TopStorageAt).value;
    ThenFile(q, f.pos + |Top| + |f.value| + 1, "", "taking max storage");
  }

  lemma TopExtFile(q: string)
    requires Search(q, TopExtAt).Some?
    ensures Contains(q, "file")
  {
    var f := Search(q, TopExtAt).value;
    TopExtAtEnds(q, f.pos);
    ThenFile(q, f.pos + |Top| + |f.value.0| + 1 + |f.value.1| + 1, "", "by size");
  }

  lemma TopUploaderWeekFile(q: string)
    requires Search(q, TopUploaderWeekAt).Some?
    ensures Contains(q, "file")
  {
    var f := Search(q, TopUploaderWeekAt).value;
    var ds := RunAfter(q, f.pos, Top, IsDigit, ByLead).value;
    RunAfterSound(q, f.pos, Top, IsDigit, ByLead, ds);
    StartsAtConcat(q, f.pos, Top + ds, ByLead);
    SubAt(q, f.pos + |Top + ds|, ByLead, 1, "file");
  }

  lemma UploaderFile(q: string)
    requires UploaderAt(q).Some?
    ensures Contains(q, "file")
  {
    assert StartsAt(q, 0, UploaderLead);
    assert UploaderLead[9..13] == "file";
    SubAt(q, 0, UploaderLead, 9, "file");
  }

  /** Every pattern contains the word "file". */
  lemma RuleMentionsFile(k: nat, q: string)
    requires k < RuleCount && Rule(k, q).Some?
    ensures Contains(q, "file")
  {
    if k == 0 {
      ThenFile(q, Search(q, TodayAt).value.pos, "were ", "uploaded today");
    } else if k == 1 {
      LastDaysFile(q);
    } else if k == 2 {
      ThenFile(q, Search(q, WeekAt).value.pos, "were ", "uploaded this week");
    } else if k == 3 {
      ThenFile(q, Search(q, MonthAt).value.pos, "were ", "uploaded this month");
    } else if k == 4 {
      LargerFile(q);
    } else if k == 5 {
      ExtMonthFile(q);
    } else if k == 6 {
      TopStorageFile(q);
    } else if k == 7 {
      TopExtFile(q);
    } else if k == 8 {
      UploaderFile(q);
    } else {
      TopUploaderWeekFile(q);
    }
  }

  /** A question that never says "file" is not understood. */
  lemma NoFileUnrecognized(q: string)
    requires !Contains(q, "file")
    ensures Classify(q) == Unrecognized
  {
    ClassifySpec(q);
    forall k | 0 <= k < RuleCount ensures Rule(k, q).None? {
      if Rule(k, q).Some? {
        RuleMentionsFile(k, q);
      }
    }
  }

  // ---------------------------------------------------------------- the uploader rule

  /** strip() leaves text that neither starts nor ends with whitespace as it is. */
  lemma StripKeeps(s: string)
    requires s != [] && !IsSpace(s[0]) && !IsSpace(s[|s| - 1])
    ensures Strip(s) == s
  {
    var r := Strip(s);
    assert LeadingSpaces(s) == 0;
    assert s[0..|s|] == s;
  }

  lemma LowerKeepsNonSpace(c: char)
    requires !IsSpace(c)
    ensures !IsSpace(LowerChar(c))
  {
  }

  lemma LowerConcat(a: string, b: string)
    ensures Lower(a + b) == Lower(a) + Lower(b)
  {
  }

  /** The normalised form of such a question. */
  lemma UploaderQuestionNormal(p: string, u: string)
    requires Lower(p) == UploaderLead
    requires u != [] && !IsSpace(u[0]) && !IsSpace(u[|u| - 1])
    ensures Normalize(p + u) == UploaderLead + Lower(u)
  {
    var raw := p + u;
    assert raw[0] == p[0];
    assert Lower(p)[0] == 'h';
    assert raw[|raw| - 1] == u[|u| - 1];
    StripKeeps(raw);
    LowerConcat(p, u);
  }

  lemma LowerKeepsLine(u: string)
    requires forall k :: 0 <= k < |u| ==> u[k] != '\n'
    ensures forall k :: 0 <= k < |Lower(u)| ==> Lower(u)[k] != '\n'
  {
  }

  /** The uploader rule captures everything after the lead of a one-line question. */
  lemma UploaderCapture(q: string, c: string)
    requires q == UploaderLead + c && c != []
    requires forall k :: 0 <= k < |c| ==> c[k] != '\n'
    ensures UploaderAt(q) == Some(c)
  {
    assert StartsAt(q, 0, UploaderLead + c);
    UploaderAtIff(q, c);
  }

  /** "How many files are uploaded by <u>", in any letter case, asks for the uploader
      lower(u) when u is a single line without surrounding whitespace: the question is
      normalised, the capture runs to the end, and strip() leaves it alone. */
  lemma UploaderQuestion(p: string, u: string)
    requires Lower(p) == UploaderLead
    requires u != [] && !IsSpace(u[0]) && !IsSpace(u[|u| - 1])
    requires forall k :: 0 <= k < |u| ==> u[k] != '\n'
    ensures Rule(8, Normalize(p + u)) == Some(UploadsBy(Lower(u)))
  {
    UploaderQuestionNormal(p, u);
    var q := Normalize(p + u);
    var c := Lower(u);
    LowerKeepsLine(u);
    UploaderCapture(q, c);
    LowerKeepsNonSpace(u[0]);
    LowerKeepsNonSpace(u[|u| - 1]);
    StripKeeps(c);
    UploaderRule(q);
  }

  lemma UploaderRule(q: string)
    ensures UploaderAt(q).Some? ==> Rule(8, q) == Some(UploadsBy(Strip(UploaderAt(q).value)))
  {
  }
}
