/** The ten question patterns of query_box (app.py:226-288), each hand-coded as a
    recognizer over the normalised question. Nine are tried with re.search (the leftmost
    position where the pattern matches); the uploader count uses re.match (position 0).

    Each recognizer commits to the first alternative of an optional piece and to the
    longest run of a repeated class. For these ten patterns that loses no match: every
    optional piece and every run is followed by a literal whose first character the piece
    cannot consume. The *Iff lemmas prove it: each recognizer accepts exactly the texts
    that some choice of the optional pieces and runs spells out, and it captures what that
    choice captures. */
module IntentMatcher {
  import opened Wrappers
  import opened Text

  // ---------------------------------------------------------------- pieces

  /** The end of the longest run of characters of class cls that starts at i. */
  function Run(q: string, i: nat, cls: char -> bool): (j: nat)
    ensures i <= j
    ensures i <= |q| ==> j <= |q|
    decreases |q| - i
  {
    if i < |q| && cls(q[i]) then Run(q, i + 1, cls) else i
  }

  /** Every character of the run is of class cls, and the one after it is not. */
  lemma {:induction false} RunSpec(q: string, i: nat, cls: char -> bool)
    ensures var j := Run(q, i, cls);
      && (forall k :: i <= k < j ==> k < |q| && cls(q[k]))
      && (j < |q| ==> !cls(q[j]))
    decreases |q| - i
  {
    if i < |q| && cls(q[i]) {
      RunSpec(q, i + 1, cls);
    }
  }

  /** A run of cls characters that ends at the end of q or before a character outside
      cls is read whole. */
  lemma {:induction false} RunStops(q: string, i: nat, cls: char -> bool, w: string)
    requires StartsAt(q, i, w)
    requires forall k :: 0 <= k < |w| ==> cls(w[k])
    requires i + |w| < |q| ==> !cls(q[i + |w|])
    ensures Run(q, i, cls) == i + |w|
    decreases |w|
  {
    assert q[i..i + |w|] == w;
    if w != [] {
      assert q[i] == w[0];
      assert q[i + 1..i + 1 + |w[1..]|] == w[1..];
      RunStops(q, i + 1, cls, w[1..]);
    }
  }

  /** The same, for a run that some text outside cls follows. */
  lemma RunStopsBefore(q: string, i: nat, cls: char -> bool, w: string, rest: string)
    requires StartsAt(q, i, w + rest)
    requires forall k :: 0 <= k < |w| ==> cls(w[k])
    requires rest != [] && !cls(rest[0])
    ensures Run(q, i, cls) == i + |w|
    ensures StartsAt(q, i, w) && StartsAt(q, i + |w|, rest)
  {
    StartsAtConcat(q, i, w, rest);
    assert q[i + |w|..i + |w| + |rest|][0] == rest[0];
    RunStops(q, i, cls, w);
  }

  /** The texts `files? (verb)?` spells, in the order a backtracking matcher tries them:
      with the s before without it, with the verb before without it. */
  function FilePhrases(verb: string): seq<string> {
    ["files " + verb, "files ", "file " + verb, "file "]
  }

  /** The first of FilePhrases(verb) that occurs at i. */
  function FilePhraseAt(q: string, i: nat, verb: string): (r: Option<string>)
    ensures r.Some? ==> r.value in FilePhrases(verb) && StartsAt(q, i, r.value)
    ensures r.None? ==> forall pf :: pf in FilePhrases(verb) ==> !StartsAt(q, i, pf)
  {
    if StartsAt(q, i, "files " + verb) then Some("files " + verb)
    else if StartsAt(q, i, "files ") then Some("files ")
    else if StartsAt(q, i, "file " + verb) then Some("file " + verb)
    else if StartsAt(q, i, "file ") then Some("file ")
    else None
  }

  /** A text does not occur at i when one of its characters differs from q's there. */
  lemma Mismatch(q: string, i: nat, w: string, k: nat)
    requires k < |w| && i + k < |q| && q[i + k] != w[k]
    ensures !StartsAt(q, i, w)
  {
    assert i + |w| <= |q| ==> q[i..i + |w|][k] == q[i + k];
  }

  /** The optional verb cannot swallow the start of what follows it, so the phrase found
      at i is the one the rest of the text needs. */
  lemma FilePhraseUnique(q: string, i: nat, verb: string, pf: string, tail: string)
    requires pf in FilePhrases(verb) && StartsAt(q, i, pf + tail)
    requires verb == "" || (tail != "" && tail[0] != verb[0])
    ensures FilePhraseAt(q, i, verb) == Some(pf)
  {
    StartsAtConcat(q, i, pf, tail);
    assert q[i..i + |pf|] == pf;
    assert q[i + |pf|..i + |pf| + |tail|] == tail;
    if pf == "files " {
      if verb != "" {
        assert q[i + 6] == tail[0];
        Mismatch(q, i, "files " + verb, 6);
      } else {
        assert "files " + verb == "files ";
      }
    } else if pf == "file " + verb || pf == "file " {
      assert q[i + 4] == pf[4] == ' ';
      Mismatch(q, i, "files " + verb, 4);
      Mismatch(q, i, "files ", 4);
      if pf == "file " {
        if verb != "" {
          assert q[i + 5] == tail[0];
          Mismatch(q, i, "file " + verb, 5);
        } else {
          assert "file " + verb == "file ";
        }
      }
    }
  }

  /** The regex reading of `files? (verb)?` followed by tail at i: some choice of the
      optional pieces spells a text that occurs there. */
  ghost predicate PhraseThenAt(q: string, i: nat, verb: string, tail: string) {
    exists pf :: pf in FilePhrases(verb) && StartsAt(q, i, pf + tail)
  }

  /** The recognizer for `files? (verb)?` followed by tail at i. */
  predicate PhraseThen(q: string, i: nat, verb: string, tail: string) {
    match FilePhraseAt(q, i, verb)
    case None => false
    case Some(pf) => StartsAt(q, i + |pf|, tail)
  }

  lemma PhraseThenSound(q: string, i: nat, verb: string, tail: string)
    requires PhraseThen(q, i, verb, tail)
    ensures PhraseThenAt(q, i, verb, tail)
  {
    var pf := FilePhraseAt(q, i, verb).value;
    StartsAtConcat(q, i, pf, tail);
    assert pf in FilePhrases(verb) && StartsAt(q, i, pf + tail);
  }

  lemma PhraseThenComplete(q: string, i: nat, verb: string, tail: string)
    requires verb == "" || (tail != "" && tail[0] != verb[0])
    requires PhraseThenAt(q, i, verb, tail)
    ensures PhraseThen(q, i, verb, tail)
  {
    var pf :| pf in FilePhrases(verb) && StartsAt(q, i, pf + tail);
    FilePhraseUnique(q, i, verb, pf, tail);
    StartsAtConcat(q, i, pf, tail);
  }

  lemma PhraseThenIff(q: string, i: nat, verb: string, tail: string)
    requires verb == "" || (tail != "" && tail[0] != verb[0])
    ensures PhraseThen(q, i, verb, tail) <==> PhraseThenAt(q, i, verb, tail)
  {
    if PhraseThen(q, i, verb, tail) {
      PhraseThenSound(q, i, verb, tail);
    }
    if PhraseThenAt(q, i, verb, tail) {
      PhraseThenComplete(q, i, verb, tail);
    }
  }

  /** Every file phrase starts with the word "file". */
  lemma PhraseThenFile(q: string, i: nat, verb: string, tail: string)
    requires PhraseThen(q, i, verb, tail)
    ensures StartsAt(q, i, "file")
  {
    var pf := FilePhraseAt(q, i, verb).value;
    assert pf == "file" + pf[4..];
    StartsAtConcat(q, i, "file", pf[4..]);
  }

  // ---------------------------------------------------------------- search

  /** A match found by a search: its position and what it captured. */
  datatype Found<T> = Found(pos: nat, value: T)

  /** The leftmost position from i on where `at` matches. */
  function SearchFrom<T(==)>(q: string, at: (string, nat) -> Option<T>, i: nat): (r: Option<Found<T>>)
    ensures r.Some? ==> i <= r.value.pos <= |q| && at(q, r.value.pos) == Some(r.value.value)
    decreases |q| + 1 - i
  {
    if i > |q| then None
    else match at(q, i)
      case Some(v) => Some(Found(i, v))
      case None => SearchFrom(q, at, i + 1)
  }

  /** Nothing matches between i and the match found, or anywhere from i on when none is. */
  lemma {:induction false} SearchFromSpec<T>(q: string, at: (string, nat) -> Option<T>, i: nat)
    ensures var r := SearchFrom(q, at, i);
      && (r.Some? ==> forall p :: i <= p < r.value.pos ==> at(q, p).None?)
      && (r.None? ==> forall p :: i <= p <= |q| ==> at(q, p).None?)
    decreases |q| + 1 - i
  {
    if i <= |q| && at(q, i).None? {
      SearchFromSpec(q, at, i + 1);
    }
  }

  /** re.search: the leftmost match in q. */
  function Search<T(==)>(q: string, at: (string, nat) -> Option<T>): (r: Option<Found<T>>)
    ensures r.Some? ==> r.value.pos <= |q| && at(q, r.value.pos) == Some(r.value.value)
  {
    SearchFrom(q, at, 0)
  }

  /** re.search finds the leftmost match, and finds none exactly when no position
      matches. */
  lemma SearchSpec<T>(q: string, at: (string, nat) -> Option<T>)
    ensures var r := Search(q, at);
      && (r.Some? ==> forall p :: 0 <= p < r.value.pos ==> at(q, p).None?)
      && (r.None? <==> forall p :: 0 <= p <= |q| ==> at(q, p).None?)
  {
    SearchFromSpec(q, at, 0);
  }

  // ---------------------------------------------------------------- the date rules

  /** files? (were )?uploaded today (app.py:226). */
  function TodayAt(q: string, i: nat): Option<()> {
    if PhraseThen(q, i, "were ", "uploaded today") then Some(()) else None
  }

  lemma TodayAtIff(q: string, i: nat)
    ensures TodayAt(q, i).Some? <==> PhraseThenAt(q, i, "were ", "uploaded today")
  {
    PhraseThenIff(q, i, "were ", "uploaded today");
  }

  /** files? (were )?uploaded this week (app.py:237). */
  function WeekAt(q: string, i: nat): Option<()> {
    if PhraseThen(q, i, "were ", "uploaded this week") then Some(()) else None
  }

  lemma WeekAtIff(q: string, i: nat)
    ensures WeekAt(q, i).Some? <==> PhraseThenAt(q, i, "were ", "uploaded this week")
  {
    PhraseThenIff(q, i, "were ", "uploaded this week");
  }

  /** files? (were )?uploaded this month (app.py:242). */
  function MonthAt(q: string, i: nat): Option<()> {
    if PhraseThen(q, i, "were ", "uploaded this month") then Some(()) else None
  }

  lemma MonthAtIff(q: string, i: nat)
    ensures MonthAt(q, i).Some? <==> PhraseThenAt(q, i, "were ", "uploaded this month")
  {
    PhraseThenIff(q, i, "were ", "uploaded this month");
  }

  const LastDaysLead := "uploaded in the last "

  /** files? (were )?uploaded in the last (\d+) days? (app.py:230); captures the digits. */
  function LastDaysAt(q: string, i: nat): (r: Option<string>)
    ensures r.Some? ==> |r.value| >= 1 && AllDigits(r.value)
  {
    match FilePhraseAt(q, i, "were ")
    case None => None
    case Some(pf) =>
      var k := i + |pf| + |LastDaysLead|;
      var e := Run(q, k, IsDigit);
      RunSpec(q, k, IsDigit);
      if StartsAt(q, i + |pf|, LastDaysLead) && k < e && StartsAt(q, e, " day")
      then Some(q[k..e]) else None
  }

  /** The regex reading: some file phrase, the lead, the digits and " day". The optional
      trailing s does not change whether or where the pattern matches. */
  ghost predicate LastDaysPhraseAt(q: string, i: nat, ds: string) {
    |ds| >= 1 && AllDigits(ds) && PhraseThenAt(q, i, "were ", LastDaysLead + ds + " day")
  }

  /** What a match of the recognizer at i consists of. */
  lemma LastDaysAtParts(q: string, i: nat, ds: string)
    requires LastDaysAt(q, i) == Some(ds)
    ensures FilePhraseAt(q, i, "were ").Some?
    ensures var pf := FilePhraseAt(q, i, "were ").value;
      var k := i + |pf| + |LastDaysLead|;
      && StartsAt(q, i + |pf|, LastDaysLead) && StartsAt(q, k, ds) && StartsAt(q, k + |ds|, " day")
  {
    var pf := FilePhraseAt(q, i, "were ").value;
    var k := i + |pf| + |LastDaysLead|;
    assert q[k..k + |ds|] == ds;
  }

  lemma LastDaysAtSound(q: string, i: nat, ds: string)
    requires LastDaysAt(q, i) == Some(ds)
    ensures LastDaysPhraseAt(q, i, ds)
  {
    LastDaysAtParts(q, i, ds);
    var pf := FilePhraseAt(q, i, "were ").value;
    var tail := LastDaysLead + ds + " day";
    StartsAtThree(q, i + |pf|, LastDaysLead, ds, " day");
    StartsAtConcat(q, i, pf, tail);
    assert pf in FilePhrases("were ") && StartsAt(q, i, pf + tail);
  }

  /** The recognizer's own steps: the phrase, the lead, a run of digits and " day". */
  lemma LastDaysAtSteps(q: string, i: nat, pf: string, ds: string)
    requires FilePhraseAt(q, i, "were ") == Some(pf)
    requires StartsAt(q, i + |pf|, LastDaysLead)
    requires var k := i + |pf| + |LastDaysLead|;
      |ds| >= 1 && Run(q, k, IsDigit) == k + |ds| && StartsAt(q, k, ds) && StartsAt(q, k + |ds|, " day")
    ensures LastDaysAt(q, i) == Some(ds)
  {
    var k := i + |pf| + |LastDaysLead|;
    assert q[k..k + |ds|] == ds;
  }

  /** A run of digits followed by " day" is read whole. */
  lemma DigitsBeforeDay(q: string, k: nat, ds: string)
    requires AllDigits(ds) && StartsAt(q, k, ds) && StartsAt(q, k + |ds|, " day")
    ensures Run(q, k, IsDigit) == k + |ds|
  {
    FirstCharAt(q, k + |ds|, " day");
    RunStops(q, k, IsDigit, ds);
  }

  lemma LastDaysFromPhrase(q: string, i: nat, pf: string, ds: string)
    requires |ds| >= 1 && AllDigits(ds)
    requires pf in FilePhrases("were ") && StartsAt(q, i, pf + (LastDaysLead + ds + " day"))
    ensures LastDaysAt(q, i) == Some(ds)
  {
    var tail := LastDaysLead + ds + " day";
    FilePhraseUnique(q, i, "were ", pf, tail);
    StartsAtConcat(q, i, pf, tail);
    StartsAtThreeParts(q, i + |pf|, LastDaysLead, ds, " day");
    DigitsBeforeDay(q, i + |pf| + |LastDaysLead|, ds);
    LastDaysAtSteps(q, i, pf, ds);
  }

  lemma LastDaysAtComplete(q: string, i: nat, ds: string)
    requires LastDaysPhraseAt(q, i, ds)
    ensures LastDaysAt(q, i) == Some(ds)
  {
    var pf :| pf in FilePhrases("were ") && StartsAt(q, i, pf + (LastDaysLead + ds + " day"));
    LastDaysFromPhrase(q, i, pf, ds);
  }

  lemma LastDaysAtIff(q: string, i: nat, ds: string)
    ensures LastDaysAt(q, i) == Some(ds) <==> LastDaysPhraseAt(q, i, ds)
  {
    if LastDaysAt(q, i) == Some(ds) {
      LastDaysAtSound(q, i, ds);
    }
    if LastDaysPhraseAt(q, i, ds) {
      LastDaysAtComplete(q, i, ds);
    }
  }

  // ---------------------------------------------------------------- the size rule

  /** What ([\d.]+ ?[kmg]?b) captures, taken apart: the number, whether a space follows
      it, and the unit letter ("" when there is none). */
  datatype SizeLiteral = SizeLiteral(number: string, spaced: bool, unit: string)

  predicate ValidLiteral(l: SizeLiteral) {
    && |l.number| >= 1
    && (forall k :: 0 <= k < |l.number| ==> IsDigitOrDot(l.number[k]))
    && (l.unit == "" || (|l.unit| == 1 && IsUnitLetter(l.unit[0])))
  }

  /** The captured text, match.group(2). */
  function LiteralText(l: SizeLiteral): (t: string)
    ensures |t| >= 1 && t[|t| - 1] == 'b'
  {
    l.number + (if l.spaced then " " else "") + l.unit + "b"
  }

  /** The part of the literal after the number. */
  function LiteralSuffix(l: SizeLiteral): string {
    (if l.spaced then " " else "") + l.unit + "b"
  }

  const LargerLead := "larger than "

  /** Reads ` ?[kmg]?b` at e: whether a space was read, and where the unit and the b start. */
  function SuffixAt(q: string, e: nat): (bool, nat, nat) {
    var spaced := StartsAt(q, e, " ");
    var u := if spaced then e + 1 else e;
    var b := if u < |q| && IsUnitLetter(q[u]) then u + 1 else u;
    (spaced, u, b)
  }

  /** A text read at i starts with the character of q at i. */
  lemma FirstCharAt(q: string, i: nat, w: string)
    requires StartsAt(q, i, w) && w != []
    ensures i < |q| && q[i] == w[0]
  {
    assert q[i..i + |w|][0] == q[i];
  }

  /** Reading a + b + c at e is reading the three one after the other. */
  lemma StartsAtThreeParts(q: string, e: nat, a: string, b: string, c: string)
    requires StartsAt(q, e, a + b + c)
    ensures StartsAt(q, e, a) && StartsAt(q, e + |a|, b) && StartsAt(q, e + |a| + |b|, c)
  {
    StartsAtConcat(q, e, a + b, c);
    StartsAtConcat(q, e, a, b);
  }

  /** The suffix reader reads back the suffix of any valid literal. */
  lemma SuffixReads(q: string, e: nat, l: SizeLiteral)
    requires ValidLiteral(l) && StartsAt(q, e, LiteralSuffix(l))
    ensures var (spaced, u, b) := SuffixAt(q, e);
      spaced == l.spaced && q[u..b] == l.unit && StartsAt(q, b, "b") && b + 1 == e + |LiteralSuffix(l)|
  {
    var sp := if l.spaced then " " else "";
    assert LiteralSuffix(l) == sp + l.unit + "b";
    StartsAtThreeParts(q, e, sp, l.unit, "b");
    var u := e + |sp|;
    var b := u + |l.unit|;
    if l.unit == "" {
      FirstCharAt(q, u, "b");
    } else {
      FirstCharAt(q, u, l.unit);
      assert q[u..u + 1] == l.unit;
    }
    if !l.spaced {
      assert !IsUnitLetter(' ') && q[e] != ' ';
      Mismatch(q, e, " ", 0);
    }
    assert SuffixAt(q, e) == (l.spaced, u, b);
  }

  /** ([\d.]+ ?[kmg]?b) at k. */
  function LiteralAt(q: string, k: nat): (r: Option<SizeLiteral>)
    ensures r.Some? ==> ValidLiteral(r.value)
  {
    var e := Run(q, k, IsDigitOrDot);
    RunSpec(q, k, IsDigitOrDot);
    var (spaced, u, b) := SuffixAt(q, e);
    if k < e && StartsAt(q, b, "b") then Some(SizeLiteral(q[k..e], spaced, q[u..b])) else None
  }

  lemma LiteralSplit(l: SizeLiteral)
    requires ValidLiteral(l)
    ensures LiteralText(l) == l.number + LiteralSuffix(l)
    ensures LiteralSuffix(l) != [] && !IsDigitOrDot(LiteralSuffix(l)[0])
  {
  }

  /** Three texts read one after the other at e are their concatenation read at e. */
  lemma StartsAtThree(q: string, e: nat, a: string, b: string, c: string)
    requires StartsAt(q, e, a) && StartsAt(q, e + |a|, b) && StartsAt(q, e + |a| + |b|, c)
    ensures StartsAt(q, e, a + b + c)
  {
    StartsAtConcat(q, e, a, b);
    StartsAtConcat(q, e, a + b, c);
  }

  /** What the suffix reader accepts is the suffix of the literal it builds. */
  lemma SuffixSound(q: string, e: nat, number: string)
    requires StartsAt(q, SuffixAt(q, e).2, "b")
    ensures var (spaced, u, b) := SuffixAt(q, e);
      u <= b && StartsAt(q, e, LiteralSuffix(SizeLiteral(number, spaced, q[u..b])))
  {
    var (spaced, u, b) := SuffixAt(q, e);
    var sp := if spaced then " " else "";
    var unit := q[u..b];
    assert u == e + |sp| && b == u + |unit|;
    assert StartsAt(q, e, sp);
    assert StartsAt(q, u, unit);
    StartsAtThree(q, e, sp, unit, "b");
  }

  lemma LiteralAtSound(q: string, k: nat, l: SizeLiteral)
    requires LiteralAt(q, k) == Some(l)
    ensures StartsAt(q, k, LiteralText(l))
  {
    var e := Run(q, k, IsDigitOrDot);
    SuffixSound(q, e, l.number);
    assert StartsAt(q, k, l.number);
    LiteralSplit(l);
    StartsAtConcat(q, k, l.number, LiteralSuffix(l));
  }

  lemma LiteralAtComplete(q: string, k: nat, l: SizeLiteral)
    requires ValidLiteral(l) && StartsAt(q, k, LiteralText(l))
    ensures LiteralAt(q, k) == Some(l)
  {
    LiteralSplit(l);
    RunStopsBefore(q, k, IsDigitOrDot, l.number, LiteralSuffix(l));
    var e := k + |l.number|;
    SuffixReads(q, e, l);
    assert q[k..e] == l.number;
  }

  /** The literal reader accepts exactly the texts [\d.]+ ?[kmg]?b spells, and reads
      back the parts that spelled it. */
  lemma LiteralAtIff(q: string, k: nat, l: SizeLiteral)
    ensures LiteralAt(q, k) == Some(l) <==> ValidLiteral(l) && StartsAt(q, k, LiteralText(l))
  {
    if LiteralAt(q, k) == Some(l) {
      LiteralAtSound(q, k, l);
    }
    if ValidLiteral(l) && StartsAt(q, k, LiteralText(l)) {
      LiteralAtComplete(q, k, l);
    }
  }

  /** files? (are )?larger than ([\d.]+ ?[kmg]?b) (app.py:246). */
  function LargerAt(q: string, i: nat): (r: Option<SizeLiteral>)
    ensures r.Some? ==> ValidLiteral(r.value)
  {
    match FilePhraseAt(q, i, "are ")
    case None => None
    case Some(pf) =>
      if StartsAt(q, i + |pf|, LargerLead) then LiteralAt(q, i + |pf| + |LargerLead|) else None
  }

  ghost predicate LargerPhraseAt(q: string, i: nat, l: SizeLiteral) {
    ValidLiteral(l) && PhraseThenAt(q, i, "are ", LargerLead + LiteralText(l))
  }

  lemma LargerAtSound(q: string, i: nat, l: SizeLiteral)
    requires LargerAt(q, i) == Some(l)
    ensures LargerPhraseAt(q, i, l)
  {
    var pf := FilePhraseAt(q, i, "are ").value;
    var k := i + |pf| + |LargerLead|;
    LiteralAtSound(q, k, l);
    StartsAtConcat(q, i + |pf|, LargerLead, LiteralText(l));
    StartsAtConcat(q, i, pf, LargerLead + LiteralText(l));
    assert pf in FilePhrases("are ") && StartsAt(q, i, pf + (LargerLead + LiteralText(l)));
  }

  /** The completeness step for one chosen file phrase. */
  lemma LargerFromPhrase(q: string, i: nat, pf: string, l: SizeLiteral)
    requires ValidLiteral(l) && pf in FilePhrases("are ")
    requires StartsAt(q, i, pf + (LargerLead + LiteralText(l)))
    ensures LargerAt(q, i) == Some(l)
  {
    var tail := LargerLead + LiteralText(l);
    FilePhraseUnique(q, i, "are ", pf, tail);
    StartsAtConcat(q, i, pf, tail);
    StartsAtConcat(q, i + |pf|, LargerLead, LiteralText(l));
    LiteralAtComplete(q, i + |pf| + |LargerLead|, l);
  }

  lemma LargerAtComplete(q: string, i: nat, l: SizeLiteral)
    requires LargerPhraseAt(q, i, l)
    ensures LargerAt(q, i) == Some(l)
  {
    var pf :| pf in FilePhrases("are ") && StartsAt(q, i, pf + (LargerLead + LiteralText(l)));
    LargerFromPhrase(q, i, pf, l);
  }

  lemma LargerAtIff(q: string, i: nat, l: SizeLiteral)
    ensures LargerAt(q, i) == Some(l) <==> LargerPhraseAt(q, i, l)
  {
    if LargerAt(q, i) == Some(l) {
      LargerAtSound(q, i, l);
    }
    if LargerPhraseAt(q, i, l) {
      LargerAtComplete(q, i, l);
    }
  }

  // ---------------------------------------------------------------- the word and number rules

  predicate AllWordChars(s: string) { forall k :: 0 <= k < |s| ==> IsWordChar(s[k]) }

  /** lead, then the longest non-empty run of cls, then sep; captures the run. */
  function RunAfter(q: string, i: nat, lead: string, cls: char -> bool, sep: string): (r: Option<string>)
    ensures r.Some? ==> |r.value| >= 1 && forall k :: 0 <= k < |r.value| ==> cls(r.value[k])
  {
    var k := i + |lead|;
    var e := Run(q, k, cls);
    RunSpec(q, k, cls);
    if StartsAt(q, i, lead) && k < e && StartsAt(q, e, sep) then Some(q[k..e]) else None
  }

  lemma RunAfterSound(q: string, i: nat, lead: string, cls: char -> bool, sep: string, w: string)
    requires RunAfter(q, i, lead, cls, sep) == Some(w)
    ensures StartsAt(q, i, lead + w + sep)
  {
    var k := i + |lead|;
    assert StartsAt(q, k, w);
    StartsAtConcat(q, i, lead, w);
    StartsAtConcat(q, i, lead + w, sep);
  }

  lemma RunAfterComplete(q: string, i: nat, lead: string, cls: char -> bool, sep: string, w: string)
    requires sep != [] && !cls(sep[0])
    requires |w| >= 1 && (forall k :: 0 <= k < |w| ==> cls(w[k])) && StartsAt(q, i, lead + w + sep)
    ensures RunAfter(q, i, lead, cls, sep) == Some(w)
  {
    StartsAtConcat(q, i, lead + w, sep);
    StartsAtConcat(q, i, lead, w);
    var k := i + |lead|;
    assert w + sep == (lead + w + sep)[|lead|..];
    StartsAtConcat(q, k, w, sep);
    RunStopsBefore(q, k, cls, w, sep);
    assert q[k..k + |w|] == w;
  }

  /** A run of cls between lead and a separator the class excludes is captured whole. */
  lemma RunAfterIff(q: string, i: nat, lead: string, cls: char -> bool, sep: string, w: string)
    requires sep != [] && !cls(sep[0])
    ensures RunAfter(q, i, lead, cls, sep) == Some(w) <==>
      |w| >= 1 && (forall k :: 0 <= k < |w| ==> cls(w[k])) && StartsAt(q, i, lead + w + sep)
  {
    if RunAfter(q, i, lead, cls, sep) == Some(w) {
      RunAfterSound(q, i, lead, cls, sep, w);
    }
    if |w| >= 1 && (forall k :: 0 <= k < |w| ==> cls(w[k])) && StartsAt(q, i, lead + w + sep) {
      RunAfterComplete(q, i, lead, cls, sep, w);
    }
  }

  const HowMany := "how many "

  /** how many (\w+) files? (were )?uploaded this month (app.py:252); captures the word. */
  function ExtMonthAt(q: string, i: nat): (r: Option<string>)
    ensures r.Some? ==> |r.value| >= 1 && AllWordChars(r.value)
  {
    match RunAfter(q, i, HowMany, IsWordChar, " ")
    case None => None
    case Some(w) =>
      if PhraseThen(q, i + |HowMany| + |w| + 1, "were ", "uploaded this month") then Some(w) else None
  }

  ghost predicate ExtMonthPhraseAt(q: string, i: nat, w: string) {
    && |w| >= 1 && AllWordChars(w)
    && StartsAt(q, i, HowMany + w + " ")
    && PhraseThenAt(q, i + |HowMany| + |w| + 1, "were ", "uploaded this month")
  }

  /** The recognizer is the run reader followed by the phrase reader. */
  lemma ExtMonthAtSplit(q: string, i: nat, w: string)
    ensures ExtMonthAt(q, i) == Some(w) <==>
      RunAfter(q, i, HowMany, IsWordChar, " ") == Some(w) && PhraseThen(q, i + |HowMany| + |w| + 1, "were ", "uploaded this month")
  {
  }

  lemma ExtMonthAtSound(q: string, i: nat, w: string)
    requires ExtMonthAt(q, i) == Some(w)
    ensures ExtMonthPhraseAt(q, i, w)
  {
    ExtMonthAtSplit(q, i, w);
    ExtMonthFromParts(q, i, w);
  }

  lemma ExtMonthFromParts(q: string, i: nat, w: string)
    requires RunAfter(q, i, HowMany, IsWordChar, " ") == Some(w)
    requires PhraseThen(q, i + |HowMany| + |w| + 1, "were ", "uploaded this month")
    ensures ExtMonthPhraseAt(q, i, w)
  {
    RunAfterSound(q, i, HowMany, IsWordChar, " ", w);
    PhraseThenSound(q, i + |HowMany| + |w| + 1, "were ", "uploaded this month");
  }

  lemma ExtMonthAtComplete(q: string, i: nat, w: string)
    requires ExtMonthPhraseAt(q, i, w)
    ensures ExtMonthAt(q, i) == Some(w)
  {
    ExtMonthToParts(q, i, w);
    ExtMonthAtSplit(q, i, w);
  }

  lemma ExtMonthToParts(q: string, i: nat, w: string)
    requires ExtMonthPhraseAt(q, i, w)
    ensures RunAfter(q, i, HowMany, IsWordChar, " ") == Some(w)
    ensures PhraseThen(q, i + |HowMany| + |w| + 1, "were ", "uploaded this month")
  {
    assert !IsWordChar(' ');
    RunAfterComplete(q, i, HowMany, IsWordChar, " ", w);
    PhraseThenComplete(q, i + |HowMany| + |w| + 1, "were ", "uploaded this month");
  }

  lemma ExtMonthAtIff(q: string, i: nat, w: string)
    ensures ExtMonthAt(q, i) == Some(w) <==> ExtMonthPhraseAt(q, i, w)
  {
    if ExtMonthAt(q, i) == Some(w) {
      ExtMonthAtSound(q, i, w);
    }
    if ExtMonthPhraseAt(q, i, w) {
      ExtMonthAtComplete(q, i, w);
    }
  }

  /** The shadowed rule: wherever the per-extension month pattern matches, the general
      month pattern matches too, at the start of its file phrase. */
  lemma ExtMonthImpliesMonth(q: string, i: nat)
    requires ExtMonthAt(q, i).Some?
    ensures MonthAt(q, i + |HowMany| + |ExtMonthAt(q, i).value| + 1).Some?
  {
  }

  const Top := "top "

  /** top (\d+) files? taking max storage (app.py:258); captures the digits. */
  function TopStorageAt(q: string, i: nat): (r: Option<string>)
    ensures r.Some? ==> |r.value| >= 1 && AllDigits(r.value)
  {
    match RunAfter(q, i, Top, IsDigit, " ")
    case None => None
    case Some(ds) =>
      if PhraseThen(q, i + |Top| + |ds| + 1, "", "taking max storage") then Some(ds) else None
  }

  ghost predicate TopStoragePhraseAt(q: string, i: nat, ds: string) {
    && |ds| >= 1 && AllDigits(ds)
    && StartsAt(q, i, Top + ds + " ")
    && PhraseThenAt(q, i + |Top| + |ds| + 1, "", "taking max storage")
  }

  /** The recognizer is the run reader followed by the phrase reader. */
  lemma TopStorageAtSplit(q: string, i: nat, ds: string)
    ensures TopStorageAt(q, i) == Some(ds) <==>
      RunAfter(q, i, Top, IsDigit, " ") == Some(ds) && PhraseThen(q, i + |Top| + |ds| + 1, "", "taking max storage")
  {
  }

  lemma TopStorageAtSound(q: string, i: nat, ds: string)
    requires TopStorageAt(q, i) == Some(ds)
    ensures TopStoragePhraseAt(q, i, ds)
  {
    TopStorageAtSplit(q, i, ds);
    TopStorageFromParts(q, i, ds);
  }

  lemma TopStorageFromParts(q: string, i: nat, ds: string)
    requires RunAfter(q, i, Top, IsDigit, " ") == Some(ds)
    requires PhraseThen(q, i + |Top| + |ds| + 1, "", "taking max storage")
    ensures TopStoragePhraseAt(q, i, ds)
  {
    RunAfterSound(q, i, Top, IsDigit, " ", ds);
    PhraseThenSound(q, i + |Top| + |ds| + 1, "", "taking max storage");
  }

  lemma TopStorageAtComplete(q: string, i: nat, ds: string)
    requires TopStoragePhraseAt(q, i, ds)
    ensures TopStorageAt(q, i) == Some(ds)
  {
    TopStorageToParts(q, i, ds);
    TopStorageAtSplit(q, i, ds);
  }

  lemma TopStorageToParts(q: string, i: nat, ds: string)
    requires TopStoragePhraseAt(q, i, ds)
    ensures RunAfter(q, i, Top, IsDigit, " ") == Some(ds)
    ensures PhraseThen(q, i + |Top| + |ds| + 1, "", "taking max storage")
  {
    assert !IsDigit(' ');
    RunAfterComplete(q, i, Top, IsDigit, " ", ds);
    PhraseThenComplete(q, i + |Top| + |ds| + 1, "", "taking max storage");
  }

  lemma TopStorageAtIff(q: string, i: nat, ds: string)
    ensures TopStorageAt(q, i) == Some(ds) <==> TopStoragePhraseAt(q, i, ds)
  {
    if TopStorageAt(q, i) == Some(ds) {
      TopStorageAtSound(q, i, ds);
    }
    if TopStoragePhraseAt(q, i, ds) {
      TopStorageAtComplete(q, i, ds);
    }
  }

  /** (\w+) files? by size at j: the part of the pattern after the number. */
  function ExtBySizeAt(q: string, j: nat): (r: Option<string>)
    ensures r.Some? ==> |r.value| >= 1 && AllWordChars(r.value)
  {
    match RunAfter(q, j, "", IsWordChar, " ")
    case None => None
    case Some(w) => if PhraseThen(q, j + |w| + 1, "", "by size") then Some(w) else None
  }

  /** top (\d+) (\w+) files? by size (app.py:265); captures the digits and the word. */
  function TopExtAt(q: string, i: nat): (r: Option<(string, string)>)
    ensures r.Some? ==> |r.value.0| >= 1 && AllDigits(r.value.0) && |r.value.1| >= 1 && AllWordChars(r.value.1)
  {
    match RunAfter(q, i, Top, IsDigit, " ")
    case None => None
    case Some(ds) =>
      match ExtBySizeAt(q, i + |Top| + |ds| + 1)
      case None => None
      case Some(w) => Some((ds, w))
  }

  /** A match of the top-by-extension pattern ends with the phrase "files? by size". */
  lemma TopExtAtEnds(q: string, i: nat)
    requires TopExtAt(q, i).Some?
    ensures var (ds, w) := TopExtAt(q, i).value;
      PhraseThen(q, i + |Top| + |ds| + 1 + |w| + 1, "", "by size")
  {
    var ds := RunAfter(q, i, Top, IsDigit, " ").value;
    var j := i + |Top| + |ds| + 1;
    var w := ExtBySizeAt(q, j).value;
    assert TopExtAt(q, i).value == (ds, w);
    assert RunAfter(q, j, "", IsWordChar, " ") == Some(w);
  }

  ghost predicate ExtBySizePhraseAt(q: string, j: nat, w: string) {
    && |w| >= 1 && AllWordChars(w)
    && StartsAt(q, j, w + " ")
    && PhraseThenAt(q, j + |w| + 1, "", "by size")
  }

  ghost predicate TopExtPhraseAt(q: string, i: nat, ds: string, w: string) {
    && |ds| >= 1 && AllDigits(ds)
    && StartsAt(q, i, Top + ds + " ")
    && ExtBySizePhraseAt(q, i + |Top| + |ds| + 1, w)
  }

  /** The recognizer is the run reader followed by the phrase reader. */
  lemma ExtBySizeAtSplit(q: string, i: nat, w: string)
    ensures ExtBySizeAt(q, i) == Some(w) <==>
      RunAfter(q, i, "", IsWordChar, " ") == Some(w) && PhraseThen(q, i + |w| + 1, "", "by size")
  {
  }

  lemma ExtBySizeAtSound(q: string, i: nat, w: string)
    requires ExtBySizeAt(q, i) == Some(w)
    ensures ExtBySizePhraseAt(q, i, w)
  {
    ExtBySizeAtSplit(q, i, w);
    ExtBySizeFromParts(q, i, w);
  }

  lemma ExtBySizeFromParts(q: string, i: nat, w: string)
    requires RunAfter(q, i, "", IsWordChar, " ") == Some(w)
    requires PhraseThen(q, i + |w| + 1, "", "by size")
    ensures ExtBySizePhraseAt(q, i, w)
  {
    assert "" + w + " " == w + " ";
    RunAfterSound(q, i, "", IsWordChar, " ", w);
    PhraseThenSound(q, i + |w| + 1, "", "by size");
  }

  lemma ExtBySizeAtComplete(q: string, i: nat, w: string)
    requires ExtBySizePhraseAt(q, i, w)
    ensures ExtBySizeAt(q, i) == Some(w)
  {
    ExtBySizeToParts(q, i, w);
    ExtBySizeAtSplit(q, i, w);
  }

  lemma ExtBySizeToParts(q: string, i: nat, w: string)
    requires ExtBySizePhraseAt(q, i, w)
    ensures RunAfter(q, i, "", IsWordChar, " ") == Some(w)
    ensures PhraseThen(q, i + |w| + 1, "", "by size")
  {
    assert "" + w + " " == w + " ";
    assert !IsWordChar(' ');
    RunAfterComplete(q, i, "", IsWordChar, " ", w);
    PhraseThenComplete(q, i + |w| + 1, "", "by size");
  }

  lemma ExtBySizeAtIff(q: string, i: nat, w: string)
    ensures ExtBySizeAt(q, i) == Some(w) <==> ExtBySizePhraseAt(q, i, w)
  {
    if ExtBySizeAt(q, i) == Some(w) {
      ExtBySizeAtSound(q, i, w);
    }
    if ExtBySizePhraseAt(q, i, w) {
      ExtBySizeAtComplete(q, i, w);
    }
  }

  /** The top-by-extension reader is the number reader followed by the extension reader. */
  lemma TopExtAtSplit(q: string, i: nat, ds: string, w: string)
    ensures TopExtAt(q, i) == Some((ds, w)) <==>
      RunAfter(q, i, Top, IsDigit, " ") == Some(ds) && ExtBySizeAt(q, i + |Top| + |ds| + 1) == Some(w)
  {
  }

  lemma TopExtAtSound(q: string, i: nat, ds: string, w: string)
    requires TopExtAt(q, i) == Some((ds, w))
    ensures TopExtPhraseAt(q, i, ds, w)
  {
    TopExtAtSplit(q, i, ds, w);
    TopExtFromParts(q, i, ds, w);
  }

  lemma TopExtFromParts(q: string, i: nat, ds: string, w: string)
    requires RunAfter(q, i, Top, IsDigit, " ") == Some(ds)
    requires ExtBySizeAt(q, i + |Top| + |ds| + 1) == Some(w)
    ensures TopExtPhraseAt(q, i, ds, w)
  {
    RunAfterSound(q, i, Top, IsDigit, " ", ds);
    ExtBySizeAtSound(q, i + |Top| + |ds| + 1, w);
  }

  lemma TopExtAtComplete(q: string, i: nat, ds: string, w: string)
    requires TopExtPhraseAt(q, i, ds, w)
    ensures TopExtAt(q, i) == Some((ds, w))
  {
    assert !IsDigit(' ');
    RunAfterComplete(q, i, Top, IsDigit, " ", ds);
    ExtBySizeAtComplete(q, i + |Top| + |ds| + 1, w);
    TopExtAtSplit(q, i, ds, w);
  }

  lemma TopExtAtIff(q: string, i: nat, ds: string, w: string)
    ensures TopExtAt(q, i) == Some((ds, w)) <==> TopExtPhraseAt(q, i, ds, w)
  {
    if TopExtAt(q, i) == Some((ds, w)) {
      TopExtAtSound(q, i, ds, w);
    }
    if TopExtPhraseAt(q, i, ds, w) {
      TopExtAtComplete(q, i, ds, w);
    }
  }

  const ByLead := " files uploaded by "

  /** top (\d+) files uploaded by (\w+) this week (app.py:280); captures the digits and
      the word. */
  function TopUploaderWeekAt(q: string, i: nat): (r: Option<(string, string)>)
    ensures r.Some? ==> |r.value.0| >= 1 && AllDigits(r.value.0) && |r.value.1| >= 1 && AllWordChars(r.value.1)
  {
    match RunAfter(q, i, Top, IsDigit, ByLead)
    case None => None
    case Some(ds) =>
      match RunAfter(q, i + |Top| + |ds| + |ByLead|, "", IsWordChar, " this week")
      case None => None
      case Some(w) => Some((ds, w))
  }

  ghost predicate TopUploaderWeekPhraseAt(q: string, i: nat, ds: string, w: string) {
    && |ds| >= 1 && AllDigits(ds) && |w| >= 1 && AllWordChars(w)
    && StartsAt(q, i, Top + ds + ByLead)
    && StartsAt(q, i + |Top| + |ds| + |ByLead|, w + " this week")
  }

  lemma TopUploaderWeekAtIff(q: string, i: nat, ds: string, w: string)
    ensures TopUploaderWeekAt(q, i) == Some((ds, w)) <==> TopUploaderWeekPhraseAt(q, i, ds, w)
  {
    var j := i + |Top| + |ds| + |ByLead|;
    assert "" + w + " this week" == w + " this week";
    if TopUploaderWeekAt(q, i) == Some((ds, w)) {
      assert RunAfter(q, i, Top, IsDigit, ByLead) == Some(ds);
      assert RunAfter(q, j, "", IsWordChar, " this week") == Some(w);
      RunAfterSound(q, i, Top, IsDigit, ByLead, ds);
      RunAfterSound(q, j, "", IsWordChar, " this week", w);
    }
    if TopUploaderWeekPhraseAt(q, i, ds, w) {
      assert !IsDigit(ByLead[0]) && !IsWordChar(' ');
      RunAfterComplete(q, i, Top, IsDigit, ByLead, ds);
      RunAfterComplete(q, j, "", IsWordChar, " this week", w);
    }
  }

  const UploaderLead := "how many files are uploaded by "

  /** re.match(r'how many files are uploaded by (.+)', q): anchored at the start; the
      capture runs to the end of the line. */
  function UploaderAt(q: string): (r: Option<string>)
    ensures r.Some? ==> |r.value| >= 1 && forall k :: 0 <= k < |r.value| ==> r.value[k] != '\n'
  {
    var k := |UploaderLead|;
    var e := Run(q, k, NotNewline);
    RunSpec(q, k, NotNewline);
    if StartsAt(q, 0, UploaderLead) && k < e then Some(q[k..e]) else None
  }

  /** The regex reading: the lead at the start, then a non-empty capture without a line
      feed that .+, being greedy, extends to the end of q or of the line. */
  ghost predicate UploaderPhrase(q: string, c: string) {
    && |c| >= 1 && (forall k :: 0 <= k < |c| ==> c[k] != '\n')
    && StartsAt(q, 0, UploaderLead + c)
    && (|UploaderLead| + |c| == |q| || q[|UploaderLead| + |c|] == '\n')
  }

  lemma UploaderAtIff(q: string, c: string)
    ensures UploaderAt(q) == Some(c) <==> UploaderPhrase(q, c)
  {
    var k := |UploaderLead|;
    RunSpec(q, k, NotNewline);
    if UploaderAt(q) == Some(c) {
      assert StartsAt(q, k, c);
      StartsAtConcat(q, 0, UploaderLead, c);
    }
    if UploaderPhrase(q, c) {
      StartsAtConcat(q, 0, UploaderLead, c);
      RunStops(q, k, NotNewline, c);
      assert q[k..k + |c|] == c;
    }
  }
}
