/** The reward of a search query from the verdicts of the catalog rows it surfaced, over the reals. */
module Reward {
  import opened Common
  import opened Refs

  const REVIEW_CREDIT := 0.35
  const JUNK_PENALTY := 0.25
  const VOLUME_SATURATION := 12.0
  const QUALITY_WEIGHT := 0.65
  const VOLUME_WEIGHT := 0.35
  const STRENGTH_WEIGHT := 0.10
  const NEUTRAL_STRENGTH := 0.5
  const RANK_SCALE := 100.0

  function Clamp(x: real): real {
    if x < 0.0 then 0.0 else if x > 1.0 then 1.0 else x
  }

  /** `log1p` and rounding to four places, as far as the reward depends on them. */
  type Curve = real -> real

  ghost predicate LogLike(log1p: Curve) {
    log1p(0.0) == 0.0 && log1p(VOLUME_SATURATION) > 0.0 && forall x, y :: 0.0 <= x <= y ==> log1p(x) <= log1p(y)
  }

  ghost predicate RoundLike(round: Curve) {
    round(0.0) == 0.0 && round(1.0) == 1.0 && forall x, y :: x <= y ==> round(x) <= round(y)
  }

  function NonNegative(n: int): int {
    if n < 0 then 0 else n
  }

  function Useful(keep: int, review: int): real {
    keep as real + REVIEW_CREDIT * review as real
  }

  function Quality(keep: int, review: int, junk: int): real
    requires keep + review + junk > 0
  {
    var total := (keep + review + junk) as real;
    Clamp(Useful(keep, review) / total - JUNK_PENALTY * (junk as real / total))
  }

  function Volume(log1p: Curve, keep: int, review: int): real
    requires log1p(VOLUME_SATURATION) != 0.0
  {
    Clamp(log1p(Useful(keep, review)) / log1p(VOLUME_SATURATION))
  }

  function Sum(scores: seq<real>): real {
    if scores == [] then 0.0 else Sum(scores[..|scores| - 1]) + scores[|scores| - 1]
  }

  function Strength(scores: seq<real>): real {
    if scores == [] then NEUTRAL_STRENGTH else Clamp(Sum(scores) / |scores| as real / RANK_SCALE)
  }

  /** `compute_reward` */
  function RewardOf(log1p: Curve, round: Curve, keep: int, review: int, junk: int, scores: seq<real>): real
    requires log1p(VOLUME_SATURATION) != 0.0
  {
    var k, r, j := NonNegative(keep), NonNegative(review), NonNegative(junk);
    if k + r + j <= 0 then 0.0
    else
      round(Clamp(QUALITY_WEIGHT * Quality(k, r, j) + VOLUME_WEIGHT * Volume(log1p, k, r)
        + STRENGTH_WEIGHT * (Strength(scores) - NEUTRAL_STRENGTH)))
  }

  // ---------------------------------------------------------------- laws

  lemma RewardInRange(log1p: Curve, round: Curve, keep: int, review: int, junk: int, scores: seq<real>)
    requires LogLike(log1p) && RoundLike(round)
    ensures 0.0 <= RewardOf(log1p, round, keep, review, junk, scores) <= 1.0
  {
    hide Quality, Volume, Strength;
  }

  lemma DivideOrder(a: real, b: real, c: real, d: real)
    requires b > 0.0 && d > 0.0 && a * d <= c * b
    ensures a / b <= c / d
  {
    var x, y := a / b, c / d;
    assert a == x * b && c == y * d;
    assert x * (b * d) == a * d && y * (b * d) == c * b;
  }

  /** Before clamping, quality is one fraction of the total. */
  lemma QualityAsFraction(keep: int, review: int, junk: int)
    requires keep + review + junk > 0
    ensures Quality(keep, review, junk) ==
      Clamp((Useful(keep, review) - JUNK_PENALTY * junk as real) / (keep + review + junk) as real)
  {
    var t := (keep + review + junk) as real;
    var u, j := Useful(keep, review), junk as real;
    assert u / t - JUNK_PENALTY * (j / t) == (u - JUNK_PENALTY * j) / t;
  }

  lemma FractionGrows(n: real, t: real)
    requires t > 0.0 && n <= t
    ensures n / t <= (n + 1.0) / (t + 1.0)
  {
    assert n * (t + 1.0) <= (n + 1.0) * t;
    DivideOrder(n, t, n + 1.0, t + 1.0);
  }

  lemma FractionShrinks(n: real, t: real)
    requires t > 0.0 && n >= -JUNK_PENALTY * t
    ensures (n - JUNK_PENALTY) / (t + 1.0) <= n / t
  {
    assert (n - JUNK_PENALTY) * t <= n * (t + 1.0);
    DivideOrder(n - JUNK_PENALTY, t + 1.0, n, t);
  }

  lemma FractionRises(n: real, more: real, t: real)
    requires t > 0.0 && n <= more
    ensures n / t <= more / t
  {
    assert n * t <= more * t;
    DivideOrder(n, t, more, t);
  }

  /** Quality never falls with one more keep or a review turned keep, and never rises with one more junk. */
  lemma QualityMoves(keep: nat, review: nat, junk: nat)
    requires keep + review + junk > 0
    ensures Quality(keep, review, junk) <= Quality(keep + 1, review, junk)
    ensures review > 0 ==> Quality(keep, review, junk) <= Quality(keep + 1, review - 1, junk)
    ensures Quality(keep, review, junk + 1) <= Quality(keep, review, junk)
  {
    var t := (keep + review + junk) as real;
    var n := Useful(keep, review) - JUNK_PENALTY * junk as real;
    QualityAsFraction(keep, review, junk);
    QualityAsFraction(keep + 1, review, junk);
    QualityAsFraction(keep, review, junk + 1);
    hide Quality;
    FractionGrows(n, t);
    FractionShrinks(n, t);
    assert (keep + 1 + review + junk) as real == t + 1.0;
    assert Useful(keep + 1, review) - JUNK_PENALTY * junk as real == n + 1.0;
    assert Useful(keep, review) - JUNK_PENALTY * (junk + 1) as real == n - JUNK_PENALTY;
    if review > 0 {
      QualityAsFraction(keep + 1, review - 1, junk);
      assert Useful(keep + 1, review - 1) - JUNK_PENALTY * junk as real == n + 0.65;
      FractionRises(n, n + 0.65, t);
    }
  }

  lemma VolumeMoves(log1p: Curve, keep: nat, review: nat, more: nat, other: nat)
    requires LogLike(log1p) && Useful(keep, review) <= Useful(more, other)
    ensures Volume(log1p, keep, review) <= Volume(log1p, more, other)
  {
    var s := log1p(VOLUME_SATURATION);
    var x, y := log1p(Useful(keep, review)), log1p(Useful(more, other));
    assert x <= y;
    assert x * s <= y * s;
    DivideOrder(x, s, y, s);
  }

  /**
   * Main result: for fixed rank scores and a positive total, the reward never falls with one more keep or a
   * review turned keep, and never rises with one more junk.
   */
  lemma RewardMoves(log1p: Curve, round: Curve, keep: nat, review: nat, junk: nat, scores: seq<real>)
    requires LogLike(log1p) && RoundLike(round) && keep + review + junk > 0
    ensures RewardOf(log1p, round, keep, review, junk, scores) <= RewardOf(log1p, round, keep + 1, review, junk, scores)
    ensures review > 0 ==>
      RewardOf(log1p, round, keep, review, junk, scores) <= RewardOf(log1p, round, keep + 1, review - 1, junk, scores)
    ensures RewardOf(log1p, round, keep, review, junk + 1, scores) <= RewardOf(log1p, round, keep, review, junk, scores)
  {
    QualityMoves(keep, review, junk);
    VolumeMoves(log1p, keep, review, keep + 1, review);
    if review > 0 {
      VolumeMoves(log1p, keep, review, keep + 1, review - 1);
    }
    hide Quality, Volume, Strength;
  }

  lemma SelfQuotient(x: real)
    requires x != 0.0
    ensures x / x == 1.0
  {
  }

  /** What a saturated all-keep query scores: a full point and the nudge of its rank scores. */
  lemma AllKeepScore(log1p: Curve, round: Curve, keep: nat, scores: seq<real>)
    requires LogLike(log1p) && RoundLike(round) && keep >= 12
    ensures RewardOf(log1p, round, keep, 0, 0, scores) ==
        round(Clamp(1.0 + STRENGTH_WEIGHT * (Strength(scores) - NEUTRAL_STRENGTH)))
    ensures Strength(scores) >= NEUTRAL_STRENGTH ==> RewardOf(log1p, round, keep, 0, 0, scores) == 1.0
  {
    QualityAsFraction(keep, 0, 0);
    SelfQuotient(keep as real);
    assert Useful(keep, 0) == keep as real;
    var s := log1p(VOLUME_SATURATION);
    assert log1p(keep as real) >= s;
    DivideOrder(s, s, log1p(keep as real), s);
    SelfQuotient(s);
    hide Strength;
  }

  // ---------------------------------------------------------------- the score in numbers

  lemma {:induction false} SumSplit(a: seq<real>, b: seq<real>)
    ensures Sum(a + b) == Sum(a) + Sum(b)
  {
    if b == [] {
      assert a + b == a;
    } else {
      assert (a + b)[..|a + b| - 1] == a + b[..|b| - 1];
      SumSplit(a, b[..|b| - 1]);
    }
  }

  /** How far the rank scores move the reward: a tenth of their mean's distance from fifty per cent. */
  function Nudge(scores: seq<real>): real {
    if scores == [] then 0.0 else 0.10 * (Clamp(Sum(scores) / |scores| as real / 100.0) - 0.5)
  }

  /** The share of useful rows, a review worth 0.35, less a quarter of the share of junk; never below zero. */
  function Share(keep: nat, review: nat, junk: nat): real
    requires keep + review + junk > 0
  {
    var share := (keep as real + 0.35 * review as real - 0.25 * junk as real) / (keep + review + junk) as real;
    if share < 0.0 then 0.0 else share
  }

  /**
   * What a query scores, in one formula: 0.65 of its share and 0.35 of its volume, which is full from twelve useful
   * rows on, nudged by the rank scores, cut to [0, 1] and rounded.
   */
  lemma RewardFormula(log1p: Curve, round: Curve, keep: nat, review: nat, junk: nat, scores: seq<real>)
    requires LogLike(log1p) && keep + review + junk > 0
    ensures var useful := keep as real + 0.35 * review as real;
            var volume := if useful >= 12.0 then 1.0 else log1p(useful) / log1p(12.0);
            RewardOf(log1p, round, keep, review, junk, scores) ==
              round(Clamp(0.65 * Share(keep, review, junk) + 0.35 * volume + Nudge(scores)))
  {
    QualityIsShare(keep, review, junk);
    VolumeIs(log1p, keep, review);
    NudgeIs(scores);
    hide Quality, Volume, Strength, Share, Nudge;
  }

  lemma QualityIsShare(keep: nat, review: nat, junk: nat)
    requires keep + review + junk > 0
    ensures Quality(keep, review, junk) == Share(keep, review, junk)
  {
    QualityAsFraction(keep, review, junk);
    hide Quality;
    var t, n := (keep + review + junk) as real, keep as real + 0.35 * review as real - 0.25 * junk as real;
    DivideOrder(n, t, 1.0, 1.0);
    assert Useful(keep, review) - JUNK_PENALTY * junk as real == n;
  }

  lemma VolumeIs(log1p: Curve, keep: nat, review: nat)
    requires LogLike(log1p)
    ensures var useful := keep as real + 0.35 * review as real;
            Volume(log1p, keep, review) == if useful >= 12.0 then 1.0 else log1p(useful) / log1p(12.0)
  {
    var useful := keep as real + 0.35 * review as real;
    var s, x := log1p(12.0), log1p(useful);
    SelfQuotient(s);
    if useful >= 12.0 {
      DivideOrder(s, s, x, s);
    } else {
      DivideOrder(x, s, s, s);
      DivideOrder(0.0, 1.0, x, s);
    }
  }

  lemma NudgeIs(scores: seq<real>)
    ensures STRENGTH_WEIGHT * (Strength(scores) - NEUTRAL_STRENGTH) == Nudge(scores)
  {
  }

  /** Negative counts are no counts. */
  lemma NegativeIsNone(log1p: Curve, round: Curve, keep: int, review: int, junk: int, scores: seq<real>)
    requires LogLike(log1p)
    ensures keep < 0 ==>
              RewardOf(log1p, round, keep, review, junk, scores) == RewardOf(log1p, round, 0, review, junk, scores)
    ensures review < 0 ==>
              RewardOf(log1p, round, keep, review, junk, scores) == RewardOf(log1p, round, keep, 0, junk, scores)
    ensures junk < 0 ==>
              RewardOf(log1p, round, keep, review, junk, scores) == RewardOf(log1p, round, keep, review, 0, scores)
    ensures RewardOf(log1p, round, 0, 0, 0, scores) == 0.0
  {
    hide Quality, Volume, Strength;
  }

  /** The nearest integer, an even one on a tie. */
  function Nearest(x: real): int {
    var below := x.Floor;
    var rest := x - below as real;
    if rest < 0.5 || (rest == 0.5 && below % 2 == 0) then below else below + 1
  }

  /** `round(x, 4)` */
  function Round4(x: real): real {
    Nearest(x * 10000.0) as real / 10000.0
  }

  lemma NearestMoves(x: real, y: real)
    requires x <= y
    ensures Nearest(x) <= Nearest(y)
  {
  }

  lemma Round4IsRoundLike()
    ensures RoundLike(Round4)
  {
    forall x: real, y: real | x <= y ensures Round4(x) <= Round4(y) {
      NearestMoves(x * 10000.0, y * 10000.0);
    }
    assert Nearest(10000.0) == 10000;
  }

  /**
   * Rounded to four places, a saturated all-keep query scores 1 exactly while its mean rank score is at least
   * 49.95, a shade below neutral.
   */
  lemma AllKeepScoresOneIff(log1p: Curve, keep: nat, scores: seq<real>)
    requires LogLike(log1p) && keep >= 12
    ensures RewardOf(log1p, Round4, keep, 0, 0, scores) == 1.0 <==> Strength(scores) >= 0.4995
  {
    Round4IsRoundLike();
    AllKeepScore(log1p, Round4, keep, scores);
    var strength := Strength(scores);
    assert 0.0 <= strength <= 1.0;
    hide Strength;
    var x := Clamp(1.0 + STRENGTH_WEIGHT * (strength - NEUTRAL_STRENGTH));
    assert Nearest(x * 10000.0) == 10000 <==> x * 10000.0 >= 9999.5;
  }

  /** Twelve keeps with rank scores of zero score 0.95; a mean of 49.96 is below neutral and still scores 1. */
  lemma AllKeepBelowNeutral(log1p: Curve)
    requires LogLike(log1p)
    ensures RewardOf(log1p, Round4, 12, 0, 0, [0.0]) == 0.95
    ensures Strength([49.96]) < NEUTRAL_STRENGTH && RewardOf(log1p, Round4, 12, 0, 0, [49.96]) == 1.0
  {
    Round4IsRoundLike();
    OneScore(0.0);
    OneScore(49.96);
    AllKeepScore(log1p, Round4, 12, [0.0]);
    AllKeepScoresOneIff(log1p, 12, [49.96]);
    hide Strength;
    assert Nearest(9500.0) == 9500;
  }

  lemma OneScore(score: real)
    requires 0.0 <= score <= 100.0
    ensures Strength([score]) == score / RANK_SCALE
  {
    assert [score][..0] == [];
    assert Sum([score]) == score;
  }

  /** An all-junk query scores what its rank scores are worth, nothing when it has none. */
  lemma AllJunkScore(log1p: Curve, round: Curve, junk: nat, scores: seq<real>)
    requires LogLike(log1p) && RoundLike(round) && junk > 0
    ensures RewardOf(log1p, round, 0, 0, junk, scores) ==
        round(Clamp(STRENGTH_WEIGHT * (Strength(scores) - NEUTRAL_STRENGTH)))
    ensures Strength(scores) <= NEUTRAL_STRENGTH ==> RewardOf(log1p, round, 0, 0, junk, scores) == 0.0
  {
    QualityAsFraction(0, 0, junk);
    var t := junk as real;
    assert (0.0 - JUNK_PENALTY * t) / t == -JUNK_PENALTY;
    assert 0.0 / log1p(VOLUME_SATURATION) == 0.0;
    hide Strength;
  }

  // ---------------------------------------------------------------- attribution

  datatype Verdict = Keep | Review | Junk

  /** A catalog row; `queries` is its list of queries, empty when the field is missing or malformed. */
  datatype Row = Row(verdict: Verdict, query: Option<string>, queries: seq<string>, rankScore: Option<real>)

  function NonBlank(texts: seq<string>): seq<string> {
    if texts == [] then []
    else
      var front, last := NonBlank(texts[..|texts| - 1]), Strip(texts[|texts| - 1]);
      if last == "" then front else front + [last]
  }

  /** Every query the row is attributed to. */
  function RowQueries(row: Row): seq<string> {
    NonBlank((if row.query.Some? then [row.query.value] else []) + row.queries)
  }

  datatype Tally = Tally(keep: nat, review: nat, junk: nat, scores: seq<real>)

  function Total(t: Tally): nat {
    t.keep + t.review + t.junk
  }

  function Credited(t: Tally, row: Row): Tally {
    var scores := if !row.verdict.Junk? && row.rankScore.Some? then t.scores + [row.rankScore.value] else t.scores;
    match row.verdict
    case Keep => Tally(t.keep + 1, t.review, t.junk, scores)
    case Review => Tally(t.keep, t.review + 1, t.junk, scores)
    case Junk => Tally(t.keep, t.review, t.junk + 1, scores)
  }

  type Board = map<string, Tally>

  function CreditOne(board: Board, query: string, row: Row): Board {
    board[query := Credited(if query in board then board[query] else Tally(0, 0, 0, []), row)]
  }

  function CreditRow(board: Board, queries: seq<string>, row: Row): Board {
    if queries == [] then board
    else CreditOne(CreditRow(board, queries[..|queries| - 1], row), queries[|queries| - 1], row)
  }

  function Grouped(rows: seq<Row>): Board {
    if rows == [] then map[]
    else
      var last := rows[|rows| - 1];
      CreditRow(Grouped(rows[..|rows| - 1]), RowQueries(last), last)
  }

  // ---------------------------------------------------------------- who is credited with what

  /** How many of the texts are the query, blanks around it aside. */
  function Named(texts: seq<string>, query: string): nat {
    if texts == [] then 0
    else Named(texts[..|texts| - 1], query) + if Strip(texts[|texts| - 1]) == query then 1 else 0
  }

  lemma {:induction false} NonBlankNamed(texts: seq<string>, query: string)
    ensures multiset(NonBlank(texts))[query] == if query == "" then 0 else Named(texts, query)
  {
    hide Strip;
    if texts != [] {
      NonBlankNamed(texts[..|texts| - 1], query);
    }
  }

  lemma {:induction false} NamedSplit(a: seq<string>, b: seq<string>, query: string)
    ensures Named(a + b, query) == Named(a, query) + Named(b, query)
  {
    hide Strip;
    if b == [] {
      assert a + b == a;
    } else {
      assert (a + b)[..|a + b| - 1] == a + b[..|b| - 1];
      NamedSplit(a, b[..|b| - 1], query);
    }
  }

  /** A row is attributed to a query once for every time it names it, in its `query` or among its `queries`. */
  lemma RowNames(row: Row, query: string)
    ensures multiset(RowQueries(row))[query] ==
              if query == "" then 0
              else Named(row.queries, query) + if row.query.Some? && Strip(row.query.value) == query then 1 else 0
  {
    hide Strip;
    var own := if row.query.Some? then [row.query.value] else [];
    NonBlankNamed(own + row.queries, query);
    NamedSplit(own, row.queries, query);
    assert row.query.Some? ==> own[..0] == [];
  }

  /** How often rows of this verdict name the query. */
  function Votes(rows: seq<Row>, query: string, verdict: Verdict): nat {
    if rows == [] then 0
    else
      var last := rows[|rows| - 1];
      Votes(rows[..|rows| - 1], query, verdict)
      + if last.verdict == verdict then multiset(RowQueries(last))[query] else 0
  }

  /** How often rows that are not junk and have this rank score name the query. */
  function Scored(rows: seq<Row>, query: string, score: real): nat {
    if rows == [] then 0
    else
      var last := rows[|rows| - 1];
      Scored(rows[..|rows| - 1], query, score)
      + if last.verdict != Junk && last.rankScore == Some(score) then multiset(RowQueries(last))[query] else 0
  }

  /** The tally of a query, empty for one nobody named. */
  function TallyOf(board: Board, query: string): Tally {
    if query in board then board[query] else Tally(0, 0, 0, [])
  }

  /** What a row adds to the tally of a query it names `n` times. */
  ghost predicate Adds(a: Tally, b: Tally, row: Row, n: nat) {
    && b.keep == a.keep + (if row.verdict == Keep then n else 0)
    && b.review == a.review + (if row.verdict == Review then n else 0)
    && b.junk == a.junk + (if row.verdict == Junk then n else 0)
    && forall x :: multiset(b.scores)[x] ==
         multiset(a.scores)[x] + if row.verdict != Junk && row.rankScore == Some(x) then n else 0
  }

  lemma CreditAdds(t: Tally, row: Row)
    ensures Adds(t, Credited(t, row), row, 1)
  {
  }

  lemma AddsMore(a: Tally, b: Tally, c: Tally, row: Row, n: nat)
    requires Adds(a, b, row, n) && Adds(b, c, row, 1)
    ensures Adds(a, c, row, n + 1)
  {
  }

  lemma {:induction false} CreditRowTally(board: Board, queries: seq<string>, row: Row, query: string)
    ensures Adds(TallyOf(board, query), TallyOf(CreditRow(board, queries, row), query), row, multiset(queries)[query])
    ensures query in CreditRow(board, queries, row) <==> query in board || query in queries
  {
    hide Credited, Adds;
    if queries == [] {
      AddsNothing(TallyOf(board, query), row);
    } else {
      var front, last := queries[..|queries| - 1], queries[|queries| - 1];
      assert queries == front + [last];
      CreditRowTally(board, front, row, query);
      var before := TallyOf(CreditRow(board, front, row), query);
      if last == query {
        CreditAdds(before, row);
        AddsMore(TallyOf(board, query), before, Credited(before, row), row, multiset(front)[query]);
      }
    }
  }

  lemma AddsNothing(t: Tally, row: Row)
    ensures Adds(t, t, row, 0)
  {
  }

  /**
   * Main result on attribution: each query is credited, verdict by verdict, with exactly the rows that name it, as
   * often as they name it, and with the rank scores of those that are not junk.
   */
  lemma {:induction false} TallyCounts(rows: seq<Row>, query: string)
    ensures var t := TallyOf(Grouped(rows), query);
            && t.keep == Votes(rows, query, Keep) && t.review == Votes(rows, query, Review)
            && t.junk == Votes(rows, query, Junk)
            && forall x :: multiset(t.scores)[x] == Scored(rows, query, x)
    ensures query in Grouped(rows) <==> exists row :: row in rows && query in RowQueries(row)
  {
    hide RowQueries, Credited;
    if rows != [] {
      var front, last := rows[..|rows| - 1], rows[|rows| - 1];
      assert rows == front + [last];
      TallyCounts(front, query);
      CreditRowTally(Grouped(front), RowQueries(last), last, query);
    }
  }

  /** How many (row, query) attributions the rows make. */
  function Attributions(rows: seq<Row>): nat {
    if rows == [] then 0 else Attributions(rows[..|rows| - 1]) + |RowQueries(rows[|rows| - 1])|
  }

  /** The sum of the result totals of the board. */
  ghost function SumTotals(board: Board): nat {
    if board == map[] then 0
    else
      var q :| q in board;
      Total(board[q]) + SumTotals(board - {q})
  }

  lemma {:induction false} SumPick(board: Board, q: string)
    requires q in board
    ensures SumTotals(board) == Total(board[q]) + SumTotals(board - {q})
    decreases |board|
  {
    var p :| p in board && SumTotals(board) == Total(board[p]) + SumTotals(board - {p});
    if p != q {
      SumPick(board - {p}, q);
      SumPick(board - {q}, p);
      assert board - {p} - {q} == board - {q} - {p};
    }
  }

  lemma CreditAddsOne(board: Board, query: string, row: Row)
    ensures SumTotals(CreditOne(board, query, row)) == SumTotals(board) + 1
  {
    var after := CreditOne(board, query, row);
    SumPick(after, query);
    assert after - {query} == board - {query};
    if query in board {
      SumPick(board, query);
    } else {
      assert board - {query} == board;
    }
  }

  lemma {:induction false} CreditRowAdds(board: Board, queries: seq<string>, row: Row)
    ensures SumTotals(CreditRow(board, queries, row)) == SumTotals(board) + |queries|
  {
    if queries != [] {
      CreditRowAdds(board, queries[..|queries| - 1], row);
      CreditAddsOne(CreditRow(board, queries[..|queries| - 1], row), queries[|queries| - 1], row);
    }
  }

  /** The result totals over all queries count every attribution of a row to a query once. */
  lemma {:induction false} TotalsAreAttributions(rows: seq<Row>)
    ensures SumTotals(Grouped(rows)) == Attributions(rows)
  {
    if rows != [] {
      TotalsAreAttributions(rows[..|rows| - 1]);
      CreditRowAdds(Grouped(rows[..|rows| - 1]), RowQueries(rows[|rows| - 1]), rows[|rows| - 1]);
    }
  }

  /** A tally keeps rank scores only of rows that are not junk. */
  ghost predicate JunkUnscored(board: Board) {
    forall q :: q in board && board[q].keep == 0 && board[q].review == 0 ==> board[q].scores == []
  }

  lemma {:induction false} CreditRowUnscored(board: Board, queries: seq<string>, row: Row)
    requires JunkUnscored(board)
    ensures JunkUnscored(CreditRow(board, queries, row))
  {
    if queries != [] {
      CreditRowUnscored(board, queries[..|queries| - 1], row);
    }
  }

  lemma {:induction false} GroupedUnscored(rows: seq<Row>)
    ensures JunkUnscored(Grouped(rows))
  {
    if rows != [] {
      GroupedUnscored(rows[..|rows| - 1]);
      CreditRowUnscored(Grouped(rows[..|rows| - 1]), RowQueries(rows[|rows| - 1]), rows[|rows| - 1]);
    }
  }

  /** A query all of whose rows are junk scores 0, whatever rank scores those rows carry. */
  lemma AllJunkScoresZero(log1p: Curve, round: Curve, rows: seq<Row>, q: string)
    requires LogLike(log1p) && RoundLike(round)
    requires q in Grouped(rows) && Grouped(rows)[q].keep == 0 && Grouped(rows)[q].review == 0
    ensures var t := Grouped(rows)[q]; RewardOf(log1p, round, t.keep, t.review, t.junk, t.scores) == 0.0
  {
    GroupedUnscored(rows);
    var t := Grouped(rows)[q];
    if t.junk > 0 {
      AllJunkScore(log1p, round, t.junk, t.scores);
    }
  }

  // ---------------------------------------------------------------- the outcome objects

  class QueryOutcome {
    var keepCount: nat
    var reviewCount: nat
    var junkCount: nat
    var rankScores: seq<real>

    function View(): Tally
      reads this
    {
      Tally(keepCount, reviewCount, junkCount, rankScores)
    }

    constructor ()
      ensures View() == Tally(0, 0, 0, [])
    {
      keepCount, reviewCount, junkCount, rankScores := 0, 0, 0, [];
    }

    method Add(row: Row)
      modifies this
      ensures View() == Credited(old(View()), row)
    {
      match row.verdict {
        case Keep => keepCount := keepCount + 1;
        case Review => reviewCount := reviewCount + 1;
        case Junk => junkCount := junkCount + 1;
      }
      if !row.verdict.Junk? && row.rankScore.Some? {
        rankScores := rankScores + [row.rankScore.value];
      }
    }
  }

  type Outcomes = map<string, QueryOutcome>

  ghost predicate Separate(grouped: Outcomes) {
    forall p, q :: p in grouped && q in grouped && p != q ==> grouped[p] != grouped[q]
  }

  ghost function BoardOf(grouped: Outcomes): Board
    reads set q | q in grouped :: grouped[q]
  {
    map q | q in grouped :: grouped[q].View()
  }

  method CreditQuery(grouped: Outcomes, query: string, row: Row) returns (after: Outcomes)
    requires Separate(grouped)
    modifies set q | q in grouped :: grouped[q]
    ensures Separate(after) && BoardOf(after) == CreditOne(old(BoardOf(grouped)), query, row)
    ensures forall q :: q in after ==> (q in grouped && after[q] == grouped[q]) || fresh(after[q])
  {
    ghost var before := BoardOf(grouped);
    after := grouped;
    if query !in after {
      var outcome := new QueryOutcome();
      after := after[query := outcome];
    }
    after[query].Add(row);
    SameMap(BoardOf(after), CreditOne(before, query, row));
  }

  method GroupCatalogRows(rows: seq<Row>) returns (grouped: Outcomes)
    ensures BoardOf(grouped) == Grouped(rows)
    ensures SumTotals(BoardOf(grouped)) == Attributions(rows)
  {
    hide RowQueries, Credited, CreditOne, SumTotals;
    grouped := map[];
    for i := 0 to |rows|
      invariant Separate(grouped) && (forall q :: q in grouped ==> fresh(grouped[q]))
      invariant BoardOf(grouped) == Grouped(rows[..i])
    {
      assert rows[..i + 1][..i] == rows[..i];
      var queries := RowQueries(rows[i]);
      ghost var before := BoardOf(grouped);
      for j := 0 to |queries|
        invariant Separate(grouped) && (forall q :: q in grouped ==> fresh(grouped[q]))
        invariant BoardOf(grouped) == CreditRow(before, queries[..j], rows[i])
      {
        assert queries[..j + 1][..j] == queries[..j];
        grouped := CreditQuery(grouped, queries[j], rows[i]);
      }
      assert queries[..|queries|] == queries;
    }
    assert rows[..|rows|] == rows;
    TotalsAreAttributions(rows);
  }
}
