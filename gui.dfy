/** The input rules of the desktop controller in gui.py, the part that decides
    what reaches the scoring engine: the strategy count, the strategy names,
    the weights and the score table. Each widget read is replaced by the text
    the widget held; widgets, message boxes, the chart and the file export are
    not modelled. */
module Gui {
  import opened Wrappers
  import opened Calculations

  /** The number of criteria (Compatibility, Cost, Time-consuming, Risks,
      Flexibility, Security): one weight field and one score column each. */
  const CriteriaCount: nat := 6

  // ---------------------------------------------------------------------------
  // Names: `entry.get().strip()`

  /** The characters Python's `str.isspace` accepts, which `str.strip()` removes. */
  predicate IsSpace(c: char) {
    var n := c as int;
    || 9 <= n <= 13 || 28 <= n <= 32 || n == 0x85 || n == 0xA0 || n == 0x1680
    || 0x2000 <= n <= 0x200A || n == 0x2028 || n == 0x2029 || n == 0x202F
    || n == 0x205F || n == 0x3000
  }

  /** Neither starts nor ends with whitespace. */
  predicate Trimmed(s: string) {
    |s| == 0 || (!IsSpace(s[0]) && !IsSpace(s[|s| - 1]))
  }

  function TrimStart(s: string): (t: string)
    ensures |t| <= |s| && t == s[|s| - |t|..]
    ensures forall k :: 0 <= k < |s| - |t| ==> IsSpace(s[k])
    ensures |t| == 0 || !IsSpace(t[0])
  {
    if |s| > 0 && IsSpace(s[0]) then TrimStart(s[1..]) else s
  }

  function TrimEnd(s: string): (t: string)
    ensures |t| <= |s| && t == s[..|t|]
    ensures forall k :: |t| <= k < |s| ==> IsSpace(s[k])
    ensures |t| == 0 || !IsSpace(t[|t| - 1])
  {
    if |s| > 0 && IsSpace(s[|s| - 1]) then TrimEnd(s[..|s| - 1]) else s
  }

  predicate AllSpace(s: string) {
    forall k :: 0 <= k < |s| ==> IsSpace(s[k])
  }

  /** `s.strip()`: `s` without its leading and trailing whitespace. */
  function Strip(s: string): (t: string)
    ensures |t| <= |s| && Trimmed(t)
  {
    TrimEnd(TrimStart(s))
  }

  /** Stripping keeps a contiguous middle part of the text and removes only
      whitespace around it. */
  lemma StripKeepsMiddle(s: string)
    ensures exists i, j ::
      && 0 <= i <= j <= |s| && Strip(s) == s[i..j]
      && (forall k :: 0 <= k < i ==> IsSpace(s[k]))
      && (forall k :: j <= k < |s| ==> IsSpace(s[k]))
  {
    var u := TrimStart(s);
    var t := TrimEnd(u);
    var i := |s| - |u|;
    var j := i + |t|;
    assert t == s[i..j] by {
      assert u == s[i..];
      assert t == u[..|t|];
    }
    forall k | j <= k < |s|
      ensures IsSpace(s[k])
    {
      assert s[k] == u[k - i];
    }
  }

  /** The stripped text is empty exactly when the text is all whitespace. */
  lemma StripEmptyIffAllSpace(s: string)
    ensures |Strip(s)| == 0 <==> AllSpace(s)
  {
    var u := TrimStart(s);
    var t := TrimEnd(u);
    var i := |s| - |u|;
    assert u == s[i..];
    if |t| == 0 {
      // TrimStart stops at a non-space, which TrimEnd would have kept
      assert |u| == 0;
    } else {
      assert t == u[..|t|];
      assert s[i] == t[0];
    }
  }

  /** The non-empty members of `xs`, in order. */
  function NonEmpty<T>(xs: seq<seq<T>>): (ys: seq<seq<T>>)
    ensures |ys| <= |xs|
    ensures forall k :: 0 <= k < |ys| ==> |ys[k]| > 0 && ys[k] in xs
  {
    if |xs| == 0 then []
    else
      var rest := NonEmpty(xs[1..]);
      assert forall i :: 1 <= i < |xs| ==> xs[i] == xs[1..][i - 1];
      if |xs[0]| > 0 then [xs[0]] + rest else rest
  }

  /** The filter keeps every non-empty member, as often as it occurs, and
      drops every empty one. */
  lemma {:induction false} NonEmptyKeepsEvery<T>(xs: seq<seq<T>>)
    ensures multiset(NonEmpty(xs)) == multiset(xs)[[] := 0]
  {
    if |xs| > 0 {
      NonEmptyKeepsEvery(xs[1..]);
      assert xs == [xs[0]] + xs[1..];
      if |xs[0]| == 0 {
        assert xs[0] == [];
      }
    }
  }

  /** The filter works member by member: filtering a concatenation
      concatenates the filtered parts, so the kept members stay in order. */
  lemma {:induction false} NonEmptyAppend<T>(a: seq<seq<T>>, b: seq<seq<T>>)
    ensures NonEmpty(a + b) == NonEmpty(a) + NonEmpty(b)
  {
    if |a| == 0 {
      assert a + b == b;
    } else {
      assert (a + b)[0] == a[0];
      assert (a + b)[1..] == a[1..] + b;
      NonEmptyAppend(a[1..], b);
    }
  }

  /** Nothing is dropped exactly when no member is empty. */
  lemma {:induction false} NonEmptyKeepsAllIff<T>(xs: seq<seq<T>>)
    ensures |NonEmpty(xs)| == |xs| <==> forall i :: 0 <= i < |xs| ==> |xs[i]| > 0
  {
    if |xs| > 0 {
      var tail := xs[1..];
      NonEmptyKeepsAllIff(tail);
      if |xs[0]| > 0 {
        assert NonEmpty(xs) == [xs[0]] + NonEmpty(tail);
        assert forall i :: 1 <= i < |xs| ==> xs[i] == tail[i - 1];
      } else {
        assert NonEmpty(xs) == NonEmpty(tail);
      }
    }
  }

  /** With no empty member, the filter changes nothing. */
  lemma {:induction false} NonEmptyUnchanged<T>(xs: seq<seq<T>>)
    requires forall i :: 0 <= i < |xs| ==> |xs[i]| > 0
    ensures NonEmpty(xs) == xs
  {
    if |xs| > 0 {
      var tail := xs[1..];
      assert forall i :: 0 <= i < |tail| ==> tail[i] == xs[i + 1];
      NonEmptyUnchanged(tail);
      assert |xs[0]| > 0;
      calc {
        NonEmpty(xs);
        [xs[0]] + NonEmpty(tail);
        [xs[0]] + tail;
        xs;
      }
    }
  }

  /** Each field stripped. */
  function StrippedAll(texts: seq<string>): (stripped: seq<string>)
  {
    seq(|texts|, i requires 0 <= i < |texts| => Strip(texts[i]))
  }

  /** Every name is non-empty and has no surrounding whitespace. */
  predicate ProperNames(names: seq<string>) {
    forall k :: 0 <= k < |names| ==> |names[k]| > 0 && Trimmed(names[k])
  }

  /** `[entry.get().strip() for entry in entries if entry.get().strip()]`: the
      stripped names, blank ones dropped, in entry order. */
  function NonBlankNames(texts: seq<string>): (names: seq<string>)
    ensures |names| <= |texts| && ProperNames(names)
  {
    NonEmpty(StrippedAll(texts))
  }

  /** The names of consecutive groups of fields are the names of each group in
      turn; with `NonBlankNameOfField` this fixes the stored list, in entry
      order with repeats, also when it is then rejected for being short. */
  lemma NonBlankNamesAppend(a: seq<string>, b: seq<string>)
    ensures NonBlankNames(a + b) == NonBlankNames(a) + NonBlankNames(b)
  {
    StrippedAllAppend(a, b);
    NonEmptyAppend(StrippedAll(a), StrippedAll(b));
  }

  lemma StrippedAllAppend(a: seq<string>, b: seq<string>)
    ensures StrippedAll(a + b) == StrippedAll(a) + StrippedAll(b)
  {
    EachAppend(Strip, a, b, StrippedAll(a), StrippedAll(b), StrippedAll(a + b));
  }

  /** Applying `f` to every member of a concatenation applies it to each part. */
  lemma EachAppend<A, B>(f: A -> B, a: seq<A>, b: seq<A>, fa: seq<B>, fb: seq<B>, fab: seq<B>)
    requires |fa| == |a| && forall i :: 0 <= i < |a| ==> fa[i] == f(a[i])
    requires |fb| == |b| && forall i :: 0 <= i < |b| ==> fb[i] == f(b[i])
    requires |fab| == |a + b| && forall i :: 0 <= i < |a + b| ==> fab[i] == f((a + b)[i])
    ensures fab == fa + fb
  {
    forall i | 0 <= i < |fab|
      ensures fab[i] == (fa + fb)[i]
    {
      if i < |a| {
        assert (a + b)[i] == a[i];
      } else {
        assert (a + b)[i] == b[i - |a|];
      }
    }
  }

  /** A single field gives its stripped text, unless that is empty. */
  lemma NonBlankNameOfField(t: string)
    ensures NonBlankNames([t]) == if |Strip(t)| > 0 then [Strip(t)] else []
  {
    var s := StrippedAll([t]);
    assert s[0] == Strip(t);
    assert s[1..] == [];
    assert NonBlankNames([t]) == NonEmpty(s);
  }

  /** Every non-blank stripped field is kept, as often as it occurs, and
      nothing else is. */
  lemma NonBlankNamesKeepEvery(texts: seq<string>)
    ensures multiset(NonBlankNames(texts)) == multiset(StrippedAll(texts))[[] := 0]
  {
    NonEmptyKeepsEvery(StrippedAll(texts));
  }

  /** Every name field survives exactly when none is blank, and then the names
      are the stripped fields in entry order; a repeated name is not rejected. */
  lemma NamesKeptIffNoneBlank(texts: seq<string>)
    ensures |NonBlankNames(texts)| == |texts| <==> forall i :: 0 <= i < |texts| ==> |Strip(texts[i])| > 0
    ensures |NonBlankNames(texts)| == |texts| ==> forall i :: 0 <= i < |texts| ==> NonBlankNames(texts)[i] == Strip(texts[i])
  {
    var stripped := StrippedAll(texts);
    NonEmptyKeepsAllIff(stripped);
    assert NonBlankNames(texts) == NonEmpty(stripped);
    assert forall i :: 0 <= i < |texts| ==> stripped[i] == Strip(texts[i]);
    if forall i :: 0 <= i < |texts| ==> |Strip(texts[i])| > 0 {
      NonEmptyUnchanged(stripped);
    }
  }

  // ---------------------------------------------------------------------------
  // Numbers: `float(entry.get()) if entry.get() else 0`

  /** What a number field held: nothing at all, or text that `float()` either
      converted (`Some`) or rejected with `ValueError` (`None`). */
  datatype EntryText = Blank | Typed(number: Option<real>)

  predicate Readable(e: EntryText) {
    e.Blank? || e.number.Some?
  }

  /** A blank field reads as 0. */
  function ValueOf(e: EntryText): real
    requires Readable(e)
  {
    if e.Blank? then 0.0 else e.number.value
  }

  /** A row of fields read in order: fails when any field is rejected, and
      otherwise holds each field's value, blanks as 0. */
  function ReadEntries(entries: seq<EntryText>): (r: Option<seq<real>>)
    ensures r.Some? <==> forall k :: 0 <= k < |entries| ==> Readable(entries[k])
    ensures r.Some? ==> |r.value| == |entries| && forall k :: 0 <= k < |entries| ==> r.value[k] == ValueOf(entries[k])
  {
    if |entries| == 0 then Some([])
    else
      var init, last := entries[..|entries| - 1], entries[|entries| - 1];
      assert forall k :: 0 <= k < |entries| - 1 ==> entries[k] == init[k];
      match ReadEntries(init)
      case None => None
      case Some(prefix) => if Readable(last) then Some(prefix + [ValueOf(last)]) else None
  }

  /** The score table read row by row: fails when any field is rejected. */
  function ReadTable(rows: seq<seq<EntryText>>): (r: Option<Matrix>)
    ensures r.Some? <==> forall i, k :: 0 <= i < |rows| && 0 <= k < |rows[i]| ==> Readable(rows[i][k])
    ensures r.Some? ==> |r.value| == |rows| && forall i :: 0 <= i < |rows| ==> ReadEntries(rows[i]) == Some(r.value[i])
  {
    if |rows| == 0 then Some([])
    else
      var init, last := rows[..|rows| - 1], rows[|rows| - 1];
      assert forall i :: 0 <= i < |rows| - 1 ==> rows[i] == init[i];
      match ReadTable(init)
      case None => None
      case Some(prefix) =>
        match ReadEntries(last)
        case None => None
        case Some(row) => Some(prefix + [row])
  }

  // ---------------------------------------------------------------------------
  // Weights: the rescaling rule

  /** `not abs(total - 1.0) > 0.01` */
  predicate WithinTolerance(total: real) {
    -0.01 <= total - 1.0 <= 0.01
  }

  /** `np.array(weights) / total` */
  function Divided(w: seq<real>, total: real): seq<real>
    requires total != 0.0
  {
    seq(|w|, k requires 0 <= k < |w| => w[k] / total)
  }

  lemma {:induction false} SumDivided(w: seq<real>, total: real)
    requires total != 0.0
    ensures Sum(Divided(w, total)) == Sum(w) / total
  {
    if |w| > 0 {
      assert Divided(w, total)[1..] == Divided(w[1..], total);
      SumDivided(w[1..], total);
      var head, rest := w[0], Sum(w[1..]);
      assert Sum(w) == head + rest;
      DivisionDistributes(head, rest, total);
    }
  }

  /** Weights whose total is within 0.01 of 1 are kept; otherwise each is divided
      by the total, so they sum to 1 and keep their ratios. Either way the
      result sums to within 0.01 of 1. */
  function RescaleWeights(w: seq<real>): (r: seq<real>)
    requires Sum(w) != 0.0
    ensures |r| == |w|
    ensures WithinTolerance(Sum(w)) ==> r == w
    ensures !WithinTolerance(Sum(w)) ==> Sum(r) == 1.0
    ensures WithinTolerance(Sum(r))
  {
    var total := Sum(w);
    if WithinTolerance(total) then w
    else
      SumDivided(w, total);
      DivisionEndpoints(total);
      Divided(w, total)
  }

  /** Rescaled weights keep their ratios: each one times the old total gives
      back the weight that was typed. */
  lemma RescaleKeepsRatios(w: seq<real>)
    requires Sum(w) != 0.0
    ensures !WithinTolerance(Sum(w)) ==> forall k :: 0 <= k < |w| ==> RescaleWeights(w)[k] * Sum(w) == w[k]
  {
    if !WithinTolerance(Sum(w)) {
      assert RescaleWeights(w) == Divided(w, Sum(w));
      DividedKeepsRatios(w, Sum(w));
    }
  }

  lemma DividedKeepsRatios(w: seq<real>, total: real)
    requires total != 0.0
    ensures forall k :: 0 <= k < |w| ==> Divided(w, total)[k] * total == w[k]
  {
    forall k | 0 <= k < |w|
      ensures Divided(w, total)[k] * total == w[k]
    {
      var x := w[k];
      assert Divided(w, total)[k] == x / total;
      assert x / total * total == x;
    }
  }

  /** Weights summing to 1.1 are off by more than 0.01, so each is divided by
      1.1: 0.2 becomes 2/11 and 0.3 becomes 3/11. */
  lemma RescaleExample()
    ensures RescaleWeights([0.2, 0.2, 0.2, 0.2, 0.3]) == [2.0 / 11.0, 2.0 / 11.0, 2.0 / 11.0, 2.0 / 11.0, 3.0 / 11.0]
  {
    var w := [0.2, 0.2, 0.2, 0.2, 0.3];
    assert Sum(w[4..]) == 0.3;
    assert Sum(w[3..]) == 0.5;
    assert Sum(w[2..]) == 0.7;
    assert Sum(w[1..]) == 0.9;
    assert Sum(w) == 1.1;
  }

  // ---------------------------------------------------------------------------
  // The controller

  /** Welcome asks for the strategy count; the input screen holds the weight
      tab and the name tab; the score screen holds the score table. */
  datatype Screen = Welcome | InputScreen | ScoreScreen

  datatype CountOutcome = CountAccepted | CountOutOfRange | CountNotANumber

  datatype InputOutcome = InputAccepted(rescaled: bool) | NamesMissing | WeightNotANumber

  /** What process_input reports for these fields, checking the names first
      and the weights second. */
  function InputDecision(count: int, nameTexts: seq<string>, weightTexts: seq<EntryText>): (r: InputOutcome)
    ensures r.InputAccepted? ==> ReadEntries(weightTexts).Some?
  {
    if |NonBlankNames(nameTexts)| != count then NamesMissing else WeightDecision(weightTexts)
  }

  /** What process_input reports once every name is present: a rejected
      weight field, or acceptance saying whether the weights are rescaled. */
  function WeightDecision(weightTexts: seq<EntryText>): (r: InputOutcome)
    ensures r != NamesMissing
    ensures r.InputAccepted? <==> ReadEntries(weightTexts).Some?
  {
    match ReadEntries(weightTexts)
    case None => WeightNotANumber
    case Some(w) => InputAccepted(!WithinTolerance(Sum(w)))
  }

  /** A missing name is reported exactly when some name field is blank after
      stripping; otherwise a rejected weight exactly when some weight field is
      neither blank nor a number; otherwise the input is accepted. */
  lemma InputDecisionMeaning(nameTexts: seq<string>, weightTexts: seq<EntryText>)
    ensures var r := InputDecision(|nameTexts|, nameTexts, weightTexts);
      && (r == NamesMissing <==> exists i :: 0 <= i < |nameTexts| && |Strip(nameTexts[i])| == 0)
      && (r == WeightNotANumber <==>
            && (forall i :: 0 <= i < |nameTexts| ==> |Strip(nameTexts[i])| > 0)
            && (exists k :: 0 <= k < |weightTexts| && !Readable(weightTexts[k])))
  {
    NamesKeptIffNoneBlank(nameTexts);
  }

  class IntegrationGui {
    var screen: Screen
    var strategyCount: int
    var strategies: seq<string>
    var weights: seq<real>

    /** Past the welcome screen the count is 2 to 4; on the score screen there
        is one stripped, non-blank name per strategy and one weight per
        criterion, summing to within 0.01 of 1. */
    ghost predicate Valid()
      reads this
    {
      && (screen != Welcome ==> 2 <= strategyCount <= 4)
      && (screen == ScoreScreen ==>
            && |strategies| == strategyCount
            && ProperNames(strategies)
            && |weights| == CriteriaCount
            && WithinTolerance(Sum(weights)))
    }

    constructor ()
      ensures Valid() && screen == Welcome && strategies == [] && weights == []
    {
      screen := Welcome;
      strategyCount := 0;
      strategies := [];
      weights := [];
    }

    /** get_strategy_count: `typed` is `int(...)` of the count field. The parsed
        value is stored before the range check, but only a count from 2 to 4
        leads to the input screen. */
    method GetStrategyCount(typed: Option<int>) returns (outcome: CountOutcome)
      requires Valid() && screen == Welcome
      modifies this
      ensures Valid()
      ensures strategies == old(strategies) && weights == old(weights)
      ensures typed.None? ==> outcome == CountNotANumber && strategyCount == old(strategyCount)
      ensures typed.Some? ==> strategyCount == typed.value
      ensures typed.Some? ==> outcome == if 2 <= typed.value <= 4 then CountAccepted else CountOutOfRange
      ensures screen == if outcome == CountAccepted then InputScreen else Welcome
    {
      if typed.None? {
        return CountNotANumber;
      }
      strategyCount := typed.value;
      if strategyCount < 2 || strategyCount > 4 {
        return CountOutOfRange;
      }
      screen := InputScreen;
      outcome := CountAccepted;
    }

    /** process_input: `nameTexts` are the name fields, `weightTexts` the six
        weight fields. The stripped non-blank names are stored first; the
        weights are read and, if accepted, rescaled and stored only when every
        name field was filled, and only then does the score screen open. */
    method ProcessInput(nameTexts: seq<string>, weightTexts: seq<EntryText>) returns (outcome: InputOutcome)
      requires Valid() && screen == InputScreen
      requires |nameTexts| == strategyCount && |weightTexts| == CriteriaCount
      requires InputDecision(strategyCount, nameTexts, weightTexts).InputAccepted? ==>
        Sum(ReadEntries(weightTexts).value) != 0.0
      modifies this
      ensures Valid() && strategyCount == old(strategyCount)
      ensures strategies == NonBlankNames(nameTexts)
      ensures outcome == InputDecision(strategyCount, nameTexts, weightTexts)
      ensures screen == if outcome.InputAccepted? then ScoreScreen else InputScreen
      ensures weights == if outcome.InputAccepted? then RescaleWeights(ReadEntries(weightTexts).value) else old(weights)
    {
      strategies := NonBlankNames(nameTexts);
      if |strategies| != strategyCount {
        return NamesMissing;
      }
      outcome := ProcessWeights(weightTexts);
    }

    /** The rest of process_input, once every name is present: the weight
        fields are read, blanks as 0; unless one is rejected, the weights are
        rescaled if their total is off by more than 0.01, stored, and the score
        screen opens. */
    method ProcessWeights(weightTexts: seq<EntryText>) returns (outcome: InputOutcome)
      requires Valid() && screen == InputScreen
      requires |strategies| == strategyCount && ProperNames(strategies)
      requires |weightTexts| == CriteriaCount
      requires ReadEntries(weightTexts).Some? ==> Sum(ReadEntries(weightTexts).value) != 0.0
      modifies this
      ensures Valid() && strategyCount == old(strategyCount) && strategies == old(strategies)
      ensures outcome == WeightDecision(weightTexts)
      ensures screen == if outcome.InputAccepted? then ScoreScreen else InputScreen
      ensures weights == if outcome.InputAccepted? then RescaleWeights(ReadEntries(weightTexts).value) else old(weights)
    {
      var parsed := ReadEntries(weightTexts);
      if parsed.None? {
        return WeightNotANumber;
      }
      var total := Sum(parsed.value);
      weights := RescaleWeights(parsed.value);
      screen := ScoreScreen;
      outcome := InputAccepted(!WithinTolerance(total));
    }

    /** calculate_results: the score fields are read row by row into a table,
        blanks as 0; a rejected field aborts with no result, otherwise the table
        goes to the engine with the stored names and weights. */
    method CalculateResults(scoreTexts: seq<seq<EntryText>>) returns (results: Option<map<string, real>>)
      requires Valid() && screen == ScoreScreen
      requires |scoreTexts| == |strategies| && forall i :: 0 <= i < |scoreTexts| ==> |scoreTexts[i]| == CriteriaCount
      ensures ReadTable(scoreTexts).None? <==> results.None?
      ensures results.Some? ==>
        && IsMatrix(ReadTable(scoreTexts).value)
        && results.value == EvaluateIntegration(strategies, weights, ReadTable(scoreTexts).value)
      ensures results.Some? ==> results.value.Keys == Names(strategies)
      ensures results.Some? && NonNegative(weights) ==>
        forall n :: n in results.value ==> 0.0 <= results.value[n] <= Sum(weights) <= 1.01
    {
      var scores: Matrix := [];
      for r := 0 to |scoreTexts|
        invariant |scores| == r
        invariant forall i :: 0 <= i < r ==> ReadEntries(scoreTexts[i]) == Some(scores[i])
      {
        var rowScores: seq<real> := [];
        for c := 0 to |scoreTexts[r]|
          invariant |rowScores| == c
          invariant forall k :: 0 <= k < c ==> Readable(scoreTexts[r][k]) && rowScores[k] == ValueOf(scoreTexts[r][k])
        {
          var entry := scoreTexts[r][c];
          if !Readable(entry) {
            return None;
          }
          rowScores := rowScores + [ValueOf(entry)];
        }
        var read := ReadEntries(scoreTexts[r]);
        assert read.Some?;
        assert read.value == rowScores;
        scores := scores + [rowScores];
      }
      var table := ReadTable(scoreTexts);
      assert table.Some?;
      assert forall i :: 0 <= i < |scores| ==> table.value[i] == scores[i];
      assert table.value == scores;
      assert forall i :: 0 <= i < |scores| ==> |scores[i]| == CriteriaCount;
      if NonNegative(weights) {
        RecordedScoresBounded(strategies, weights, scores);
      }
      results := Some(EvaluateIntegration(strategies, weights, scores));
    }
  }
}
