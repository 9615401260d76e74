/**
 * The decisions the operator scripts take on typed input, shared between them: the
 * re-asking number prompt, the yes/no confirmation, the comma-separated list of names,
 * the space-separated list of 1-based numbers, and the result built from two scores.
 */
module Prompts {
  import opened Wrappers
  import opened Text
  import opened Entities
  import RatingService

  // ---------------------------------------------------------------- numbers

  /** The smallest accepted match week and the smallest accepted score. */
  const FIRST_WEEK := 1
  const LEAST_SCORE := 0

  /** Why one typed line is refused by a number prompt; the scripts print it and ask again. */
  datatype Refusal = NotANumber | TooSmall

  /** One answer to `int(input(...).strip())` followed by the check `value < least`. */
  function ReadAtLeast(line: string, least: int): (r: Result<int, Refusal>)
    ensures r.Ok? <==> ParseInt(Strip(line)).Some? && ParseInt(Strip(line)).value >= least
    ensures r.Ok? ==> ParseInt(Strip(line)) == Some(r.value)
    ensures r == Err(NotANumber) <==> ParseInt(Strip(line)).None?
  {
    match ParseInt(Strip(line))
    case None => Err(NotANumber)
    case Some(n) => if n < least then Err(TooSmall) else Ok(n)
  }

  /**
   * The `while True` prompt loop over the lines the operator types: the first answer
   * `read` accepts and how many lines were read up to and including it; `None` when
   * every line is refused.
   */
  function Prompt<T, E>(lines: seq<string>, read: string -> Result<T, E>): (r: Option<(T, nat)>)
    ensures r.Some? ==> 1 <= r.value.1 <= |lines| && read(lines[r.value.1 - 1]) == Ok(r.value.0)
    ensures r.Some? ==> forall i :: 0 <= i < r.value.1 - 1 ==> read(lines[i]).Err?
    ensures r.None? <==> forall i :: 0 <= i < |lines| ==> read(lines[i]).Err?
    decreases |lines|
  {
    if |lines| == 0 then None
    else if read(lines[0]).Ok? then Some((read(lines[0]).value, 1))
    else
      var later := Prompt(lines[1..], read);
      assert forall i :: 1 <= i < |lines| ==> lines[i] == lines[1..][i - 1];
      if later.None? then None else Some((later.value.0, later.value.1 + 1))
  }

  /** The match-week prompt: a whole number of at least 1. */
  function WeekAnswer(line: string): Result<int, Refusal> {
    ReadAtLeast(line, FIRST_WEEK)
  }

  /** The score prompts: a whole number of at least 0. */
  function ScoreAnswer(line: string): Result<int, Refusal> {
    ReadAtLeast(line, LEAST_SCORE)
  }

  /** Typing a number answers the prompt exactly when it is at least the bound. */
  lemma PromptReadsShownNumber(n: int, least: int)
    ensures Prompt([ShowInt(n)], (line: string) => ReadAtLeast(line, least)) == if n >= least then Some((n, 1)) else None
  {
    ShowIntIsWord(n);
    ParseShowInt(n);
  }

  /** Refused lines typed before an answer only shift the count of lines read. */
  lemma {:induction false} PromptSkipsRefusals<T, E>(refused: seq<string>, rest: seq<string>, read: string -> Result<T, E>)
    requires forall i :: 0 <= i < |refused| ==> read(refused[i]).Err?
    ensures Prompt(refused + rest, read).None? <==> Prompt(rest, read).None?
    ensures Prompt(rest, read).Some? ==>
              Prompt(refused + rest, read) == Some((Prompt(rest, read).value.0, Prompt(rest, read).value.1 + |refused|))
    decreases |refused|
  {
    if |refused| > 0 {
      var all := refused + rest;
      assert all[1..] == refused[1..] + rest;
      assert all[0] == refused[0];
      PromptSkipsRefusals(refused[1..], rest, read);
    } else {
      assert refused + rest == rest;
    }
  }

  // ---------------------------------------------------------------- confirmation

  /** `input(...).strip().lower() == 'yes'`. */
  predicate Confirms(answer: string) {
    Lower(Strip(answer)) == "yes"
  }

  // ---------------------------------------------------------------- lists of names

  /** `[n.strip() for n in pieces]` without the empty names, in order. */
  function KeepNames(pieces: seq<string>): (names: seq<string>)
    ensures |names| <= |pieces|
    ensures forall i :: 0 <= i < |names| ==> names[i] != "" && Strip(names[i]) == names[i]
    decreases |pieces|
  {
    if |pieces| == 0 then []
    else
      var n := Strip(pieces[0]);
      StripIdempotent(pieces[0]);
      if n == "" then KeepNames(pieces[1..]) else [n] + KeepNames(pieces[1..])
  }

  /** Trimming never brings in a character the pieces lack. */
  lemma {:induction false} KeepNamesAvoid(pieces: seq<string>, c: char)
    requires forall i :: 0 <= i < |pieces| ==> c !in pieces[i]
    ensures forall i :: 0 <= i < |KeepNames(pieces)| ==> c !in KeepNames(pieces)[i]
    decreases |pieces|
  {
    if |pieces| > 0 {
      var p := pieces[0];
      SliceAvoids(p, LeadingSpace(p), LeadingSpace(p) + |Strip(p)|, c);
      KeepNamesAvoid(pieces[1..], c);
    }
  }

  /**
   * The third-time name list: the stripped line split on commas, each piece trimmed,
   * empty pieces dropped.
   */
  function ParseNames(line: string): (names: seq<string>)
    ensures forall i :: 0 <= i < |names| ==> names[i] != "" && Strip(names[i]) == names[i] && ',' !in names[i]
    ensures Strip(line) == "" ==> names == []
  {
    var pieces := SplitOn(Strip(line), ',');
    KeepNamesAvoid(pieces, ',');
    StripOfTrimmed("");
    assert Strip(line) == "" ==> pieces == [""];
    KeepNames(pieces)
  }

  lemma SliceAvoids(s: string, a: int, b: int, c: char)
    requires 0 <= a <= b <= |s| && c !in s
    ensures c !in s[a..b]
  {
    assert forall k :: 0 <= k < b - a ==> s[a..b][k] == s[a + k];
  }

  /** Names that are trimmed, non-empty and free of commas survive joining with commas and parsing back. */
  lemma ParseJoinedNames(names: seq<string>)
    requires forall i :: 0 <= i < |names| ==> names[i] != "" && Strip(names[i]) == names[i] && ',' !in names[i]
    ensures ParseNames(Join(names, ',')) == names
  {
    var line := Join(names, ',');
    if |names| == 0 {
      StripOfTrimmed(line);
    } else {
      JoinedNamesTrimmed(names);
      SplitJoin(names, ',');
      ParsedPieces(line, names);
      KeepTrimmedNames(names);
    }
  }

  lemma ParsedPieces(line: string, pieces: seq<string>)
    requires Strip(line) == line && SplitOn(line, ',') == pieces
    ensures ParseNames(line) == KeepNames(pieces)
  {
  }

  lemma JoinedNamesTrimmed(names: seq<string>)
    requires |names| > 0
    requires forall i :: 0 <= i < |names| ==> names[i] != "" && Strip(names[i]) == names[i]
    ensures Strip(Join(names, ',')) == Join(names, ',')
  {
    JoinEnds(names, ',');
    var last := names[|names| - 1];
    assert !IsSpace(names[0][0]) && !IsSpace(last[|last| - 1]);
    StripOfTrimmed(Join(names, ','));
  }

  lemma {:induction false} KeepTrimmedNames(names: seq<string>)
    requires forall i :: 0 <= i < |names| ==> names[i] != "" && Strip(names[i]) == names[i]
    ensures KeepNames(names) == names
    decreases |names|
  {
    if |names| > 0 {
      KeepTrimmedNames(names[1..]);
      assert names == [names[0]] + names[1..];
    }
  }

  // ---------------------------------------------------------------- lists of numbers

  /** Python's `xs[i]` on a list of length `n`; a position outside `[-n, n)` is the `IndexError`. */
  function PyIndex(i: int, n: nat): (r: Option<nat>)
    ensures r.Some? <==> -(n as int) <= i < n
    ensures r.Some? ==> r.value < n && r.value == i % n
  {
    if 0 <= i < n then Some(i)
    else if -(n as int) <= i < 0 then Some(i + n)
    else None
  }

  /** `int(token) - 1` used as a list position; `None` for the `ValueError` or the `IndexError`. */
  function NumberedPosition(token: string, n: nat): (r: Option<nat>)
    ensures r.Some? ==> r.value < n
    ensures r.Some? <==> ParseInt(token).Some? && -(n as int) <= ParseInt(token).value - 1 < n
  {
    match ParseInt(token)
    case None => None
    case Some(k) => PyIndex(k - 1, n)
  }

  /** `[items[int(x) - 1] for x in tokens]`; the first failing token stops the comprehension. */
  function PickEach<T>(tokens: seq<string>, items: seq<T>): (r: Option<seq<T>>)
    ensures r.Some? <==> forall k :: 0 <= k < |tokens| ==> NumberedPosition(tokens[k], |items|).Some?
    ensures r.Some? ==> |r.value| == |tokens|
    ensures r.Some? ==> forall k :: 0 <= k < |tokens| ==> r.value[k] == items[NumberedPosition(tokens[k], |items|).value]
    decreases |tokens|
  {
    assert forall k :: 1 <= k < |tokens| ==> tokens[k] == tokens[1..][k - 1];
    if |tokens| == 0 then Some([])
    else
      match NumberedPosition(tokens[0], |items|)
      case None => None
      case Some(i) =>
        match PickEach(tokens[1..], items)
        case None => None
        case Some(rest) => Some([items[i]] + rest)
  }

  /** The selection prompts of `record_match.py`: the items numbered by the whitespace-separated tokens. */
  function SelectByNumbers<T>(selection: string, items: seq<T>): (r: Option<seq<T>>)
    ensures r.Some? ==> |r.value| == |SplitWhitespace(selection)| && forall x :: x in r.value ==> x in items
  {
    PickEach(SplitWhitespace(selection), items)
  }

  /** The 1-based numbers of the given positions, as the operator types them. */
  function Numbers(positions: seq<nat>): (tokens: seq<string>)
    ensures |tokens| == |positions|
    ensures forall k :: 0 <= k < |positions| ==> tokens[k] == ShowInt(positions[k] + 1)
  {
    seq(|positions|, k requires 0 <= k < |positions| => ShowInt(positions[k] + 1))
  }

  /** The items at the given positions, in the order the positions come. */
  function ItemsAt<T>(items: seq<T>, positions: seq<nat>): (r: seq<T>)
    requires forall k :: 0 <= k < |positions| ==> positions[k] < |items|
    ensures |r| == |positions| && forall k :: 0 <= k < |positions| ==> r[k] == items[positions[k]]
  {
    seq(|positions|, k requires 0 <= k < |positions| => items[positions[k]])
  }

  /** Typing the numbers of any valid positions selects exactly the items at those positions. */
  lemma SelectShownNumbers<T>(items: seq<T>, positions: seq<nat>)
    requires forall k :: 0 <= k < |positions| ==> positions[k] < |items|
    ensures SelectByNumbers(Join(Numbers(positions), ' '), items) == Some(ItemsAt(items, positions))
  {
    NumberTokens(positions, |items|);
    SplitWhitespaceJoin(Numbers(positions));
    PickPositions(Numbers(positions), items, positions);
  }

  lemma NumberTokens(positions: seq<nat>, n: nat)
    requires forall k :: 0 <= k < |positions| ==> positions[k] < n
    ensures forall k :: 0 <= k < |positions| ==>
              IsWord(Numbers(positions)[k]) && NumberedPosition(Numbers(positions)[k], n) == Some(positions[k])
  {
    forall k | 0 <= k < |positions|
      ensures IsWord(Numbers(positions)[k]) && NumberedPosition(Numbers(positions)[k], n) == Some(positions[k])
    {
      ShowIntIsWord(positions[k] + 1);
      ParseShowInt(positions[k] + 1);
      PositionOfNumber(ShowInt(positions[k] + 1), n, positions[k]);
    }
  }

  lemma PositionOfNumber(token: string, n: nat, p: nat)
    requires p < n && ParseInt(token) == Some(p + 1)
    ensures NumberedPosition(token, n) == Some(p)
  {
  }

  lemma PickPositions<T>(tokens: seq<string>, items: seq<T>, positions: seq<nat>)
    requires |tokens| == |positions|
    requires forall k :: 0 <= k < |positions| ==> positions[k] < |items|
    requires forall k :: 0 <= k < |tokens| ==> NumberedPosition(tokens[k], |items|) == Some(positions[k])
    ensures PickEach(tokens, items) == Some(ItemsAt(items, positions))
  {
    var r := PickEach(tokens, items);
    assert r.Some?;
    var picked := ItemsAt(items, positions);
    forall k | 0 <= k < |positions| ensures r.value[k] == picked[k] {
      assert NumberedPosition(tokens[k], |items|).value == positions[k];
    }
    assert r.value == picked;
  }

  /** The number `-k` (and `0` for `k == 0`) picks the item `k + 1` places from the end. */
  lemma NonPositiveNumbersCountFromEnd<T>(items: seq<T>, k: nat)
    requires k < |items|
    ensures SelectByNumbers(ShowInt(-(k as int)), items) == Some([items[|items| - 1 - k]])
  {
    ShowIntIsWord(-(k as int));
    ParseShowInt(-(k as int));
    SelectFromEnd(ShowInt(-(k as int)), items, k);
  }

  lemma SelectFromEnd<T>(token: string, items: seq<T>, k: nat)
    requires IsWord(token) && ParseInt(token) == Some(-(k as int)) && k < |items|
    ensures SelectByNumbers(token, items) == Some([items[|items| - 1 - k]])
  {
    PositionFromEnd(token, |items|, k);
    SelectOne(token, items, |items| - 1 - k);
  }

  lemma PositionFromEnd(token: string, n: nat, k: nat)
    requires k < n && ParseInt(token) == Some(-(k as int))
    ensures NumberedPosition(token, n) == Some(n - 1 - k)
  {
  }

  lemma SelectOne<T>(token: string, items: seq<T>, i: nat)
    requires IsWord(token) && i < |items| && NumberedPosition(token, |items|) == Some(i)
    ensures SelectByNumbers(token, items) == Some([items[i]])
  {
    SplitWhitespaceOfWord(token);
    var r := PickEach([token], items);
    assert [token][0] == token;
    assert r.Some? && |r.value| == 1 && r.value[0] == items[i];
    assert r.value == [items[i]];
  }

  /** Numbers past the end, or `-n` and below, are refused. */
  lemma OutOfRangeNumbersRefused<T>(items: seq<T>, k: int)
    requires k > |items| || k < -|items| + 1
    ensures SelectByNumbers(ShowInt(k), items).None?
  {
    ShowIntIsWord(k);
    SplitWhitespaceOfWord(ShowInt(k));
    ParseShowInt(k);
  }

  // ---------------------------------------------------------------- results

  /**
   * The result the scripts store for team A (black) scoring `a` and team B (pink)
   * scoring `b`: the higher score wins, equal scores draw with no winner.
   */
  function ResultFromScores(m: MatchId, teamA: TeamId, teamB: TeamId, a: int, b: int): (r: MatchResult)
    ensures r.matchId == m && r.teamA == teamA && r.teamB == teamB && r.scoreA == a && r.scoreB == b
    ensures r.resultType == ResultDraw <==> a == b
    ensures a > b ==> r.winningTeam == Some(teamA)
    ensures b > a ==> r.winningTeam == Some(teamB)
    ensures a == b ==> r.winningTeam == None
  {
    if a > b then MatchResult(m, teamA, teamB, a, b, Some(teamA), ResultWin)
    else if b > a then MatchResult(m, teamA, teamB, a, b, Some(teamB), ResultWin)
    else MatchResult(m, teamA, teamB, a, b, None, ResultDraw)
  }

  /** Which side is called A does not change who wins. */
  lemma ResultIgnoresSides(m: MatchId, teamA: TeamId, teamB: TeamId, a: int, b: int)
    ensures ResultFromScores(m, teamB, teamA, b, a).winningTeam == ResultFromScores(m, teamA, teamB, a, b).winningTeam
    ensures ResultFromScores(m, teamB, teamA, b, a).resultType == ResultFromScores(m, teamA, teamB, a, b).resultType
  {
  }

  /** The outcome of a player on a side, read from a score comparison. */
  function ScoreOutcome(mine: int, theirs: int): Outcome {
    if mine > theirs then Win else if mine == theirs then Draw else Loss
  }

  /**
   * The engine reads the stored result back as the score comparison: the team with the
   * higher score wins, the other loses, and equal scores are a draw for both.
   */
  lemma ResultOutcomes(m: MatchId, teamA: TeamId, teamB: TeamId, a: int, b: int)
    requires teamA != teamB
    ensures RatingService.OutcomeForTeam(teamA, Some(ResultFromScores(m, teamA, teamB, a, b))) == ScoreOutcome(a, b)
    ensures RatingService.OutcomeForTeam(teamB, Some(ResultFromScores(m, teamA, teamB, a, b))) == ScoreOutcome(b, a)
  {
  }
}
