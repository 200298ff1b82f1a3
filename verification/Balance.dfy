/** The team balancer (ntserv/balance.c).

    It lists the players, shuffles the list, tries every way to split it in two, and moves
    the players to the best split: sizes within one of each other, then the smallest rating
    difference, then the fewest players changing sides. */
module Balance {

  const NOBODY: int := 0
  const TEAMS: set<int> := {1, 2, 4, 8}  // FED, ROM, KLI, ORI
  const WORST: int := 0x4000_0000        // 1 << 30

  /** An entry of the working array: slot number, rating, team so far. */
  datatype Item = Item(no: nat, value: int, team: int)

  /** An item and the side it is put on: team one or team two. */
  datatype Pick = Pick(item: Item, first: bool)

  /** The five sums the inner loops compute. */
  datatype Measure = CountOne | CountTwo | ValueOne | ValueTwo | Swaps(one: int, two: int)

  function Of(m: Measure, p: Pick): int {
    match m
    case CountOne => if p.first then 1 else 0
    case CountTwo => if p.first then 0 else 1
    case ValueOne => if p.first then p.item.value else 0
    case ValueTwo => if p.first then 0 else p.item.value
    case Swaps(one, two) => if p.item.team != (if p.first then one else two) then 1 else 0
  }

  function Sum(m: Measure, picks: seq<Pick>): int {
    if picks == [] then 0 else Sum(m, picks[..|picks| - 1]) + Of(m, picks[|picks| - 1])
  }

  /** A split of the list: entry j goes to team one exactly when choice[j]. */
  function Split(list: seq<Item>, choice: seq<bool>): (picks: seq<Pick>)
    requires |list| == |choice|
    ensures |picks| == |list|
  {
    seq(|list|, j requires 0 <= j < |list| => Pick(list[j], choice[j]))
  }

  function Abs(x: int): (r: int) {
    if x < 0 then -x else x
  }

  predicate Even(picks: seq<Pick>) {
    Abs(Sum(CountOne, picks) - Sum(CountTwo, picks)) <= 1
  }

  function Difference(picks: seq<Pick>): int {
    Abs(Sum(ValueOne, picks) - Sum(ValueTwo, picks))
  }

  /** The objective: rating difference first, then changes of side. */
  datatype Score = Score(difference: int, swaps: int)

  predicate Better(a: Score, b: Score) {
    a.difference < b.difference || (a.difference == b.difference && a.swaps < b.swaps)
  }

  function ScoreOf(picks: seq<Pick>, one: int, two: int): Score {
    Score(Difference(picks), Sum(Swaps(one, two), picks))
  }

  /** `score` is achieved by an even split, and no even split does better. */
  ghost predicate IsLeast(list: seq<Item>, one: int, two: int, score: Score) {
    && (exists choice: seq<bool> :: |choice| == |list| && Even(Split(list, choice)) && ScoreOf(Split(list, choice), one, two) == score)
    && NoneBetter(list, one, two, score)
  }

  ghost predicate NoneBetter(list: seq<Item>, one: int, two: int, score: Score) {
    forall choice: seq<bool> :: |choice| == |list| && Even(Split(list, choice)) ==>
      !Better(ScoreOf(Split(list, choice), one, two), score)
  }

  // ---- Combination numbers ----

  function Pow2(n: nat): (r: nat)
    ensures r > 0
  {
    if n == 0 then 1 else 2 * Pow2(n - 1)
  }

  /** `(1 << j) & i`; a combination of -1 has every bit set. */
  predicate Bit(i: int, j: nat)
    requires i >= -1
    decreases j
  {
    i == -1 || (if j == 0 then i % 2 == 1 else Bit(i / 2, j - 1))
  }

  function Choice(i: int, n: nat): (choice: seq<bool>)
    requires i >= -1
    ensures |choice| == n
  {
    seq(n, j requires 0 <= j < n => Bit(i, j))
  }

  /** The combination number of a choice. */
  ghost function Number(choice: seq<bool>): (i: nat) {
    if choice == [] then 0 else (if choice[0] then 1 else 0) + 2 * Number(choice[1..])
  }

  /** Counting through the combination numbers reaches every choice. */
  lemma {:induction false} EveryChoiceHasNumber(choice: seq<bool>)
    ensures Number(choice) < Pow2(|choice|)
    ensures Choice(Number(choice), |choice|) == choice
  {
    if choice != [] {
      EveryChoiceHasNumber(choice[1..]);
      var i, rest := Number(choice), Number(choice[1..]);
      assert i / 2 == rest;
      forall j: nat | j < |choice|
        ensures Bit(i, j) == choice[j]
      {
        if j > 0 {
          assert Bit(i, j) == Bit(rest, j - 1);
          assert Choice(rest, |choice| - 1)[j - 1] == choice[1..][j - 1];
        }
      }
    }
  }

  // ---- The exhaustive search ----

  datatype Best = Best(combination: int, value: int, one: int, two: int, swaps: int)

  /** What the search has found after looking at combinations 0 .. i - 1. */
  ghost predicate BestSoFar(list: seq<Item>, one: int, two: int, i: nat, best: Best) {
    && -1 <= best.combination < i
    && (best.combination == -1 ==> best == Best(-1, WORST, 0, 0, WORST))
    && (best.combination >= 0 ==>
          var picks := Split(list, Choice(best.combination, |list|));
          && Even(picks) && ScoreOf(picks, one, two) == Score(best.value, best.swaps)
          && best.one == Sum(ValueOne, picks) && best.two == Sum(ValueTwo, picks)
          && Better(Score(best.value, best.swaps), Score(WORST, WORST)))
    && forall k: nat :: k < i ==> NotBetter(list, one, two, k, best)
  }

  ghost predicate NotBetter(list: seq<Item>, one: int, two: int, k: nat, best: Best) {
    var picks := Split(list, Choice(k, |list|));
    Even(picks) ==> !Better(ScoreOf(picks, one, two), Score(best.value, best.swaps))
  }

  lemma {:induction false} StillNotBetter(s: Score, best: Score, best': Score)
    requires !Better(s, best) && (best' == best || Better(best', best))
    ensures !Better(s, best')
  {
  }

  method Search(list: seq<Item>, one: int, two: int) returns (best: Best)
    ensures BestSoFar(list, one, two, Pow2(|list|), best)
    ensures NoneBetter(list, one, two, Score(best.value, best.swaps))
  {
    var records := |list|;
    best := Best(-1, WORST, 0, 0, WORST);
    var i := 0;
    while i < Pow2(records)
      invariant 0 <= i <= Pow2(records)
      invariant BestSoFar(list, one, two, i, best)
    {
      best := Try(list, one, two, i, best);
      i := i + 1;
    }
    forall choice: seq<bool> | |choice| == |list| && Even(Split(list, choice))
      ensures !Better(ScoreOf(Split(list, choice), one, two), Score(best.value, best.swaps))
    {
      EveryChoiceHasNumber(choice);
      assert NotBetter(list, one, two, Number(choice), best);
    }
  }

  /** How many players a combination puts on either side. */
  method CountSides(list: seq<Item>, i: nat) returns (countA: int, countB: int)
    ensures countA == Sum(CountOne, Split(list, Choice(i, |list|)))
    ensures countB == Sum(CountTwo, Split(list, Choice(i, |list|)))
  {
    ghost var picks := Split(list, Choice(i, |list|));
    countA, countB := 0, 0;
    for j := 0 to |list|
      invariant countA == Sum(CountOne, picks[..j]) && countB == Sum(CountTwo, picks[..j])
    {
      assert picks[..j + 1][..j] == picks[..j];
      if Bit(i, j) { countA := countA + 1; } else { countB := countB + 1; }
    }
    assert picks[..|list|] == picks;
  }

  /** The ratings of the two sides, added up. */
  method RateSides(list: seq<Item>, i: nat) returns (valueA: int, valueB: int)
    ensures valueA == Sum(ValueOne, Split(list, Choice(i, |list|)))
    ensures valueB == Sum(ValueTwo, Split(list, Choice(i, |list|)))
  {
    ghost var picks := Split(list, Choice(i, |list|));
    valueA, valueB := 0, 0;
    for j := 0 to |list|
      invariant valueA == Sum(ValueOne, picks[..j]) && valueB == Sum(ValueTwo, picks[..j])
    {
      assert picks[..j + 1][..j] == picks[..j];
      if Bit(i, j) { valueA := valueA + list[j].value; } else { valueB := valueB + list[j].value; }
    }
    assert picks[..|list|] == picks;
  }

  /** How many players would have to change their team. */
  method CountSwaps(list: seq<Item>, one: int, two: int, i: nat) returns (swaps: int)
    ensures swaps == Sum(Swaps(one, two), Split(list, Choice(i, |list|)))
  {
    ghost var picks := Split(list, Choice(i, |list|));
    swaps := 0;
    for j := 0 to |list|
      invariant swaps == Sum(Swaps(one, two), picks[..j])
    {
      assert picks[..j + 1][..j] == picks[..j];
      if Bit(i, j) {
        if list[j].team != one { swaps := swaps + 1; }
      } else {
        if list[j].team != two { swaps := swaps + 1; }
      }
    }
    assert picks[..|list|] == picks;
  }

  /** One combination: skip it if the sides are uneven, remember it if it is better. */
  method Try(list: seq<Item>, one: int, two: int, i: nat, best: Best) returns (best': Best)
    requires BestSoFar(list, one, two, i, best)
    ensures BestSoFar(list, one, two, i + 1, best')
  {
    best' := best;
    var countA, countB := CountSides(list, i);
    if Abs(countA - countB) > 1 {
      return;
    }
    var valueA, valueB := RateSides(list, i);
    var swaps := CountSwaps(list, one, two, i);
    var difference := Abs(valueA - valueB);
    if difference < best.value || (difference == best.value && swaps < best.swaps) {
      best' := Best(i, difference, valueA, valueB, swaps);
    }
    forall k: nat | k < i + 1
      ensures NotBetter(list, one, two, k, best')
    {
      if k < i {
        assert NotBetter(list, one, two, k, best);
        if Even(Split(list, Choice(k, |list|))) {
          StillNotBetter(ScoreOf(Split(list, Choice(k, |list|)), one, two),
                         Score(best.value, best.swaps), Score(best'.value, best'.swaps));
        }
      }
    }
  }

  // ---- Shuffling the list does not matter ----

  function Swapped<T>(s: seq<T>, a: nat, b: nat): (r: seq<T>)
    requires a < |s| && b < |s|
    ensures |r| == |s|
  {
    s[a := s[b]][b := s[a]]
  }

  lemma {:induction false} SumUpdate(m: Measure, picks: seq<Pick>, a: nat, p: Pick)
    requires a < |picks|
    ensures Sum(m, picks[a := p]) == Sum(m, picks) - Of(m, picks[a]) + Of(m, p)
  {
    var n := |picks| - 1;
    assert picks[a := p][..n] == if a < n then picks[..n][a := p] else picks[..n];
    if a < n { SumUpdate(m, picks[..n], a, p); }
  }

  lemma {:induction false} SumSwapped(m: Measure, picks: seq<Pick>, a: nat, b: nat)
    requires a < |picks| && b < |picks|
    ensures Sum(m, Swapped(picks, a, b)) == Sum(m, picks)
  {
    SumUpdate(m, picks, a, picks[b]);
    SumUpdate(m, picks[a := picks[b]], b, picks[a]);
  }

  /** Exchanging two entries of the list, and their sides, changes no sum. */
  lemma {:induction false} SwapKeepsScore(list: seq<Item>, choice: seq<bool>, one: int, two: int, a: nat, b: nat)
    requires |choice| == |list| && a < |list| && b < |list|
    ensures var before, after := Split(list, choice), Split(Swapped(list, a, b), Swapped(choice, a, b));
            Even(after) == Even(before) && ScoreOf(after, one, two) == ScoreOf(before, one, two)
  {
    var before, after := Split(list, choice), Split(Swapped(list, a, b), Swapped(choice, a, b));
    assert after == Swapped(before, a, b);
    SumSwapped(CountOne, before, a, b);
    SumSwapped(CountTwo, before, a, b);
    SumSwapped(ValueOne, before, a, b);
    SumSwapped(ValueTwo, before, a, b);
    SumSwapped(Swaps(one, two), before, a, b);
  }

  lemma {:induction false} SwapKeepsNoneBetter(list: seq<Item>, one: int, two: int, a: nat, b: nat, score: Score)
    requires a < |list| && b < |list| && NoneBetter(list, one, two, score)
    ensures NoneBetter(Swapped(list, a, b), one, two, score)
  {
    var list' := Swapped(list, a, b);
    forall choice: seq<bool> | |choice| == |list'| && Even(Split(list', choice))
      ensures !Better(ScoreOf(Split(list', choice), one, two), score)
    {
      SwapKeepsScore(list', choice, one, two, a, b);
      assert Swapped(list', a, b) == list;
      assert !Better(ScoreOf(Split(list, Swapped(choice, a, b)), one, two), score);
    }
  }

  lemma {:induction false} SwapKeepsLeast(list: seq<Item>, one: int, two: int, a: nat, b: nat, score: Score)
    requires a < |list| && b < |list| && IsLeast(list, one, two, score)
    ensures IsLeast(Swapped(list, a, b), one, two, score)
  {
    var list' := Swapped(list, a, b);
    var choice: seq<bool> :| |choice| == |list| && Even(Split(list, choice))
                             && ScoreOf(Split(list, choice), one, two) == score;
    SwapKeepsScore(list, choice, one, two, a, b);
    SwapKeepsNoneBetter(list, one, two, a, b, score);
    var choice' := Swapped(choice, a, b);
    assert |choice'| == |list'| && Even(Split(list', choice')) && ScoreOf(Split(list', choice'), one, two) == score;
  }

  /** The shuffle: one exchange for each pair of random indices. */
  function Shuffled(list: seq<Item>, draws: seq<(nat, nat)>): (r: seq<Item>)
    requires forall d :: d in draws ==> d.0 < |list| && d.1 < |list|
    ensures |r| == |list|
  {
    if draws == [] then list
    else
      var n := |draws| - 1;
      assert draws[n] in draws;
      var before := Shuffled(list, draws[..n]);
      Swapped(before, draws[n].0, draws[n].1)
  }

  /** One draw exchanges two entries; more draws do so one after the other. */
  lemma {:induction false} ShuffledExactly(list: seq<Item>, draws: seq<(nat, nat)>, a: nat, b: nat)
    requires a < |list| && b < |list| && forall d :: d in draws ==> d.0 < |list| && d.1 < |list|
    ensures var before, after := Shuffled(list, draws), Shuffled(list, draws + [(a, b)]);
            && after[a] == before[b] && after[b] == before[a]
            && forall j :: 0 <= j < |list| && j != a && j != b ==> after[j] == before[j]
    ensures Shuffled(list, []) == list
  {
    assert (draws + [(a, b)])[..|draws|] == draws;
  }

  /** Whatever the shuffle does, the same score is the least one. */
  lemma {:induction false} ShuffleKeepsLeast(list: seq<Item>, draws: seq<(nat, nat)>, one: int, two: int, score: Score)
    requires forall d :: d in draws ==> d.0 < |list| && d.1 < |list|
    ensures IsLeast(Shuffled(list, draws), one, two, score) <==> IsLeast(list, one, two, score)
  {
    if draws != [] {
      var n := |draws| - 1;
      var before := Shuffled(list, draws[..n]);
      var after := Shuffled(list, draws);
      var (a, b) := draws[n];
      assert draws[n] in draws;
      ShuffleKeepsLeast(list, draws[..n], one, two, score);
      assert after == Swapped(before, a, b) && Swapped(after, a, b) == before;
      if IsLeast(before, one, two, score) { SwapKeepsLeast(before, one, two, a, b, score); }
      if IsLeast(after, one, two, score) { SwapKeepsLeast(after, one, two, a, b, score); }
    }
  }

  lemma {:induction false} LeastIsUnique(list: seq<Item>, one: int, two: int, s: Score, t: Score)
    requires IsLeast(list, one, two, s) && IsLeast(list, one, two, t)
    ensures s == t
  {
  }

  // ---- How many players the best split moves ----

  function Complement(choice: seq<bool>): (r: seq<bool>)
    ensures |r| == |choice|
  {
    seq(|choice|, j requires 0 <= j < |choice| => !choice[j])
  }

  /** Players already on one of the two teams, and players on neither. */
  function OnTeams(list: seq<Item>, one: int, two: int): nat {
    if list == [] then 0
    else OnTeams(list[..|list| - 1], one, two) + (if list[|list| - 1].team in {one, two} then 1 else 0)
  }

  /** Exchanging the two sides exchanges the counts and the ratings; and of the two splits
      together, a player of the two teams is moved in one, any other player in both. */
  lemma {:induction false} ComplementSums(list: seq<Item>, choice: seq<bool>, one: int, two: int)
    requires |choice| == |list| && one != two
    ensures var p, q := Split(list, choice), Split(list, Complement(choice));
            && Sum(CountOne, q) == Sum(CountTwo, p) && Sum(CountTwo, q) == Sum(CountOne, p)
            && Sum(ValueOne, q) == Sum(ValueTwo, p) && Sum(ValueTwo, q) == Sum(ValueOne, p)
            && Sum(Swaps(one, two), p) + Sum(Swaps(one, two), q) == 2 * |list| - OnTeams(list, one, two)
    decreases |list|
  {
    if list != [] {
      var n := |list| - 1;
      ComplementSums(list[..n], choice[..n], one, two);
      assert Split(list, choice)[..n] == Split(list[..n], choice[..n]);
      assert Complement(choice)[..n] == Complement(choice[..n]);
      assert Split(list, Complement(choice))[..n] == Split(list[..n], Complement(choice[..n]));
    }
  }

  /** The best split moves at most half the players of the two teams, and the others. */
  lemma {:induction false} LeastMovesFew(list: seq<Item>, one: int, two: int, score: Score)
    requires one != two && IsLeast(list, one, two, score)
    ensures score.swaps <= OnTeams(list, one, two) / 2 + (|list| - OnTeams(list, one, two))
  {
    var choice: seq<bool> :| |choice| == |list| && Even(Split(list, choice))
                             && ScoreOf(Split(list, choice), one, two) == score;
    ComplementSums(list, choice, one, two);
    assert !Better(ScoreOf(Split(list, Complement(choice)), one, two), score);
  }

  // ---- When the search finds something ----

  /** Sides taken alternately are even, so an even split always exists. */
  lemma {:induction false} AlternateIsEven(list: seq<Item>, choice: seq<bool>)
    requires |choice| == |list| && forall j :: 0 <= j < |choice| ==> (choice[j] <==> j % 2 == 0)
    ensures Sum(CountOne, Split(list, choice)) - Sum(CountTwo, Split(list, choice)) == |list| % 2
  {
    if list != [] {
      var n := |list| - 1;
      AlternateIsEven(list[..n], choice[..n]);
      assert Split(list, choice)[..n] == Split(list[..n], choice[..n]);
    }
  }

  lemma {:induction false} EvenSplitExists(list: seq<Item>)
    ensures exists choice: seq<bool> :: |choice| == |list| && Even(Split(list, choice))
  {
    var choice := seq(|list|, j => j % 2 == 0);
    AlternateIsEven(list, choice);
    assert |choice| == |list| && Even(Split(list, choice));
  }

  lemma {:induction false} SwapsBounded(picks: seq<Pick>, one: int, two: int)
    ensures 0 <= Sum(Swaps(one, two), picks) <= |picks|
    ensures Sum(Swaps(one, two), picks) == 0 ==>
              forall j :: 0 <= j < |picks| ==> Of(Swaps(one, two), picks[j]) == 0
  {
    if picks != [] {
      var n := |picks| - 1;
      SwapsBounded(picks[..n], one, two);
      assert forall j :: 0 <= j < n ==> picks[j] == picks[..n][j];
    }
  }

  /** The search finds a split exactly when some even split has a rating difference of at most
      1 << 30; what it finds is then the least score. */
  lemma {:induction false} SearchFinds(list: seq<Item>, one: int, two: int, best: Best)
    requires |list| <= 30
    requires BestSoFar(list, one, two, Pow2(|list|), best)
    requires NoneBetter(list, one, two, Score(best.value, best.swaps))
    ensures best.combination != -1 ==> IsLeast(list, one, two, Score(best.value, best.swaps))
    ensures best.combination != -1 <==>
            exists choice: seq<bool> :: |choice| == |list| && Even(Split(list, choice)) && Difference(Split(list, choice)) <= WORST
  {
    if best.combination != -1 {
      var choice := Choice(best.combination, |list|);
      assert |choice| == |list| && Even(Split(list, choice)) && Difference(Split(list, choice)) <= WORST;
    }
    if choice: seq<bool> :| |choice| == |list| && Even(Split(list, choice)) && Difference(Split(list, choice)) <= WORST {
      SwapsBounded(Split(list, choice), one, two);
      assert !Better(ScoreOf(Split(list, choice), one, two), Score(best.value, best.swaps));
    }
  }

  // ---- The whole balancer ----

  datatype Player = Player(free: bool, robot: bool, team: int, value: int)

  predicate Playing(p: Player) {
    !p.free && !p.robot
  }

  /** The working array: the players in slot order. */
  function Records(players: seq<Player>): seq<Item> {
    if players == [] then []
    else
      var n := |players| - 1;
      Records(players[..n]) + if Playing(players[n]) then [Item(n, players[n].value, players[n].team)] else []
  }

  /** The entries are the playing slots, each once. */
  lemma {:induction false} RecordsArePlayers(players: seq<Player>)
    ensures forall j :: 0 <= j < |Records(players)| ==> ItemMatches(Records(players)[j], players)
    ensures Distinct(Records(players))
    ensures forall i :: 0 <= i < |players| && Playing(players[i]) ==>
              Item(i, players[i].value, players[i].team) in Records(players)
  {
    if players != [] {
      var n := |players| - 1;
      var list, rest := Records(players), Records(players[..n]);
      RecordsArePlayers(players[..n]);
      assert forall j :: 0 <= j < |rest| ==> list[j] == rest[j] && ItemMatches(rest[j], players[..n]);
      forall i | 0 <= i < |players| && Playing(players[i])
        ensures Item(i, players[i].value, players[i].team) in list
      {
        if i < n {
          assert players[..n][i] == players[i];
          assert Item(i, players[i].value, players[i].team) in rest;
        } else {
          assert list[|rest|] == Item(i, players[i].value, players[i].team);
        }
      }
    }
  }

  predicate Distinct(list: seq<Item>) {
    forall j, k :: 0 <= j < |list| && 0 <= k < |list| && j != k ==> list[j].no != list[k].no
  }

  predicate ItemMatches(item: Item, players: seq<Player>) {
    && item.no < |players| && Playing(players[item.no])
    && item.value == players[item.no].value && item.team == players[item.no].team
  }

  /** The team of the first player, from slot `from` on, whose team is in `unseen`; 0 if none. */
  function FirstTeam(players: seq<Player>, unseen: set<int>, from: nat): int
    requires from <= |players|
    decreases |players| - from
  {
    if from == |players| then 0
    else if Playing(players[from]) && players[from].team in unseen then players[from].team
    else FirstTeam(players, unseen, from + 1)
  }

  /** `sides`: the teams of the first two teams found. */
  function Sides(players: seq<Player>): (int, int) {
    var one := FirstTeam(players, TEAMS, 0);
    (one, FirstTeam(players, TEAMS - {one}, 0))
  }

  /** A player in the game, on one of the four teams but not on `other`. */
  predicate OnTeamBut(p: Player, other: int) {
    !p.free && !p.robot && p.team in {1, 2, 4, 8} && p.team != other
  }

  /** `team` is the team of the first such player; 0 if there is none. */
  ghost predicate IsFirstTeam(players: seq<Player>, other: int, team: int) {
    if team == 0 then forall i :: 0 <= i < |players| ==> !OnTeamBut(players[i], other)
    else exists i :: 0 <= i < |players| && OnTeamBut(players[i], other) && players[i].team == team
                     && forall k :: 0 <= k < i ==> !OnTeamBut(players[k], other)
  }

  /** The first two teams met in slot order. */
  ghost predicate AreSides(players: seq<Player>, one: int, two: int) {
    IsFirstTeam(players, 0, one) && IsFirstTeam(players, one, two)
  }

  lemma {:induction false} FirstTeamFound(players: seq<Player>, unseen: set<int>, other: int, from: nat)
    requires from <= |players| && unseen == TEAMS - {other}
    requires forall k :: 0 <= k < from ==> !OnTeamBut(players[k], other)
    ensures IsFirstTeam(players, other, FirstTeam(players, unseen, from))
    decreases |players| - from
  {
    if from < |players| && !OnTeamBut(players[from], other) { FirstTeamFound(players, unseen, other, from + 1); }
  }

  /** The sides are the team of the first player on a team, and that of the first player on another
      team; 0 stands for none. */
  lemma {:induction false} SidesAreFirst(players: seq<Player>)
    ensures AreSides(players, Sides(players).0, Sides(players).1)
  {
    assert TEAMS - {0} == TEAMS;
    FirstTeamFound(players, TEAMS, 0, 0);
    FirstTeamFound(players, TEAMS - {Sides(players).0}, Sides(players).0, 0);
  }

  /** Nothing else can be meant by the first two teams. */
  lemma {:induction false} SidesAreUnique(players: seq<Player>, one: int, two: int)
    requires AreSides(players, one, two)
    ensures (one, two) == Sides(players)
  {
    SidesAreFirst(players);
    FirstIsUnique(players, 0, one, Sides(players).0);
    FirstIsUnique(players, one, two, Sides(players).1);
  }

  lemma {:induction false} FirstIsUnique(players: seq<Player>, other: int, a: int, b: int)
    requires IsFirstTeam(players, other, a) && IsFirstTeam(players, other, b)
    ensures a == b
  {
  }

  /** Who is on team one, entry by entry. */
  function OnOne(list: seq<Item>, players: seq<Player>, one: int): (choice: seq<bool>)
    requires forall j :: 0 <= j < |list| ==> list[j].no < |players|
    ensures |choice| == |list|
  {
    seq(|list|, j requires 0 <= j < |list| => players[list[j].no].team == one)
  }

  lemma {:induction false} FirstTeamIsTeam(players: seq<Player>, unseen: set<int>, from: nat)
    requires from <= |players|
    ensures FirstTeam(players, unseen, from) == 0 || FirstTeam(players, unseen, from) in unseen
    decreases |players| - from
  {
    if from < |players| { FirstTeamIsTeam(players, unseen, from + 1); }
  }

  lemma {:induction false} SkipSeen(players: seq<Player>, unseen: set<int>, from: nat, to: nat)
    requires from <= to <= |players|
    requires forall k :: from <= k < to ==> !(Playing(players[k]) && players[k].team in unseen)
    ensures FirstTeam(players, unseen, from) == FirstTeam(players, unseen, to)
    decreases |players| - from
  {
    if from < to { SkipSeen(players, unseen, from + 1, to); }
  }

  /** Every entry of the shuffled list is an entry of the list. */
  lemma {:induction false} ShuffledItems(list: seq<Item>, draws: seq<(nat, nat)>, players: seq<Player>)
    requires forall d :: d in draws ==> d.0 < |list| && d.1 < |list|
    requires forall j :: 0 <= j < |list| ==> ItemMatches(list[j], players)
    requires Distinct(list)
    ensures var r := Shuffled(list, draws);
            && (forall j :: 0 <= j < |r| ==> ItemMatches(r[j], players))
            && Distinct(r)
            && (forall item :: item in list ==> item in r)
  {
    if draws != [] {
      var n := |draws| - 1;
      assert draws[n] in draws;
      ShuffledItems(list, draws[..n], players);
      SwappedContains(Shuffled(list, draws[..n]), draws[n].0, draws[n].1);
    }
  }

  lemma {:induction false} SwappedContains<T>(s: seq<T>, a: nat, b: nat)
    requires a < |s| && b < |s|
    ensures forall x :: x in s ==> x in Swapped(s, a, b)
  {
    forall x | x in s
      ensures x in Swapped(s, a, b)
    {
      var i :| 0 <= i < |s| && s[i] == x;
      assert Swapped(s, a, b)[if i == a then b else if i == b then a else i] == x;
    }
  }

  /** The score of an assignment of teams does not depend on the order of the list. */
  lemma {:induction false} ShuffleKeepsScore(list: seq<Item>, draws: seq<(nat, nat)>, players: seq<Player>, one: int, two: int)
    requires forall d :: d in draws ==> d.0 < |list| && d.1 < |list|
    requires forall j :: 0 <= j < |list| ==> list[j].no < |players|
    ensures var r := Shuffled(list, draws);
            && (forall j :: 0 <= j < |r| ==> r[j].no < |players|)
            && var before, after := Split(list, OnOne(list, players, one)), Split(r, OnOne(r, players, one));
               Even(after) == Even(before) && ScoreOf(after, one, two) == ScoreOf(before, one, two)
  {
    if draws != [] {
      var n := |draws| - 1;
      var middle := Shuffled(list, draws[..n]);
      var (a, b) := draws[n];
      assert draws[n] in draws;
      ShuffleKeepsScore(list, draws[..n], players, one, two);
      SwapKeepsScore(middle, OnOne(middle, players, one), one, two, a, b);
      assert OnOne(Swapped(middle, a, b), players, one) == Swapped(OnOne(middle, players, one), a, b);
    }
  }

  lemma {:induction false} ShuffleKeepsNoneBetter(list: seq<Item>, draws: seq<(nat, nat)>, one: int, two: int, score: Score)
    requires forall d :: d in draws ==> d.0 < |list| && d.1 < |list|
    ensures NoneBetter(Shuffled(list, draws), one, two, score) <==> NoneBetter(list, one, two, score)
  {
    if draws != [] {
      var n := |draws| - 1;
      var before := Shuffled(list, draws[..n]);
      var after := Shuffled(list, draws);
      var (a, b) := draws[n];
      assert draws[n] in draws;
      ShuffleKeepsNoneBetter(list, draws[..n], one, two, score);
      assert after == Swapped(before, a, b) && Swapped(after, a, b) == before;
      if NoneBetter(before, one, two, score) { SwapKeepsNoneBetter(before, one, two, a, b, score); }
      if NoneBetter(after, one, two, score) { SwapKeepsNoneBetter(after, one, two, a, b, score); }
    }
  }

  /** Nobody but the listed players is touched, and of them only the team. */
  ghost predicate OnlyTeamsChange(before: seq<Player>, after: seq<Player>) {
    && |after| == |before|
    && forall i :: 0 <= i < |before| ==>
         after[i] == before[i].(team := after[i].team) && (!Playing(before[i]) ==> after[i] == before[i])
  }

  /** In-place shuffle of the working array. */
  method Shuffle(list: array<Item>, draws: seq<(nat, nat)>)
    requires forall d :: d in draws ==> d.0 < list.Length && d.1 < list.Length
    modifies list
    ensures list[..] == Shuffled(old(list[..]), draws)
  {
    for i := 0 to |draws|
      invariant list[..] == Shuffled(old(list[..]), draws[..i])
    {
      assert draws[..i + 1][..i] == draws[..i];
      var (a, b) := draws[i];
      assert draws[i] in draws;
      var swapper := list[a];
      list[a] := list[b];
      list[b] := swapper;
    }
    assert draws[..|draws|] == draws;
  }

  class Game {
    var players: seq<Player>

    /** `sides` finds two teams with one pass over the slots. */
    method FindSides() returns (one: int, two: int)
      ensures (one, two) == Sides(players) && AreSides(players, one, two)
    {
      SidesAreFirst(players);
      var unseen := TEAMS;
      one, two := 0, 0;
      for i := 0 to |players|
        invariant two == 0
        invariant one == 0 ==> unseen == TEAMS
        invariant one != 0 ==> one == FirstTeam(players, TEAMS, 0) && one in TEAMS && unseen == TEAMS - {one}
        invariant forall k :: 0 <= k < i ==> !(Playing(players[k]) && players[k].team in unseen)
      {
        SkipSeen(players, unseen, 0, i);
        var p := players[i];
        if Playing(p) && p.team in unseen {
          if one == 0 {
            one := p.team;
            unseen := unseen - {p.team};
          } else {
            two := p.team;
            return;
          }
        }
      }
      SkipSeen(players, unseen, 0, |players|);
      SkipSeen(players, TEAMS - {one}, 0, |players|);
    }

    /** `move` the listed players to their sides. */
    method MovePlayers(list: seq<Item>, combination: int, one: int, two: int)
      requires combination >= -1 && one != two
      requires forall j :: 0 <= j < |list| ==> ItemMatches(list[j], players)
      requires Distinct(list)
      modifies this
      ensures OnlyTeamsChange(old(players), players)
      ensures forall j :: 0 <= j < |list| ==> list[j].no < |players|
      ensures forall j: nat :: j < |list| ==> players[list[j].no].team == if Bit(combination, j) then one else two
    {
      for j := 0 to |list|
        invariant OnlyTeamsChange(old(players), players)
        invariant forall k: nat :: k < j ==> players[list[k].no].team == if Bit(combination, k) then one else two
      {
        var no := list[j].no;
        players := players[no := players[no].(team := if Bit(combination, j) then one else two)];
      }
    }

    /** `do_balance`: the final teams are an even split with the least score there is, unless
        every even split has a rating difference above 1 << 30: then everybody lands on team one. */
    method DoBalance(draws: seq<(nat, nat)>) returns (one: int, two: int)
      requires |Records(players)| <= 30
      requires forall d :: d in draws ==> d.0 < |Records(players)| && d.1 < |Records(players)|
      modifies this
      ensures (one, two) == Sides(old(players)) && AreSides(old(players), one, two)
      ensures two == 0 ==> players == old(players)
      ensures two != 0 ==> OnlyTeamsChange(old(players), players)
      ensures two != 0 && Balanceable(Records(old(players))) ==>
                && (forall i :: 0 <= i < |players| && Playing(players[i]) ==> players[i].team in {one, two})
                && IsBalanced(Records(old(players)), players, one, two)
      ensures two != 0 && !Balanceable(Records(old(players))) ==>
                forall i :: 0 <= i < |players| && Playing(players[i]) ==> players[i].team == one
    {
      one, two := FindSides();
      if two == 0 {
        return;
      }
      FirstTeamIsTeam(players, TEAMS - {one}, 0);
      var records := Records(players);
      RecordsArePlayers(players);
      var list := new Item[|records|](i requires 0 <= i < |records| => records[i]);
      assert list[..] == records;
      Shuffle(list, draws);
      var best := Search(list[..], one, two);
      ShuffledItems(records, draws, players);
      if best.swaps != 0 {
        MovePlayers(list[..], best.combination, one, two);
      }
      FinalTeams(draws, old(players), players, one, two, best);
    }
  }

  ghost predicate Balanceable(list: seq<Item>) {
    exists choice: seq<bool> :: |choice| == |list| && Even(Split(list, choice)) && Difference(Split(list, choice)) <= WORST
  }

  ghost predicate IsBalanced(list: seq<Item>, players: seq<Player>, one: int, two: int) {
    && (forall j :: 0 <= j < |list| ==> list[j].no < |players|)
    && var picks := Split(list, OnOne(list, players, one));
       Even(picks) && IsLeast(list, one, two, ScoreOf(picks, one, two))
  }

  // ---- Putting it together ----

  /** The state after the search and the moves it calls for. */
  ghost predicate Settled(shuffled: seq<Item>, before: seq<Player>, after: seq<Player>, one: int, two: int, best: Best) {
    && |shuffled| <= 30 && one != two
    && BestSoFar(shuffled, one, two, Pow2(|shuffled|), best)
    && NoneBetter(shuffled, one, two, Score(best.value, best.swaps))
    && (forall j :: 0 <= j < |shuffled| ==> ItemMatches(shuffled[j], before))
    && |after| == |before|
    && (best.swaps == 0 ==> after == before)
    && (best.swaps != 0 ==>
          forall j: nat :: j < |shuffled| ==> after[shuffled[j].no].team == if Bit(best.combination, j) then one else two)
  }

  /** Moving or not, every listed player ends up on the side the best combination gives. */
  lemma {:induction false} SidesAreTaken(shuffled: seq<Item>, before: seq<Player>, after: seq<Player>, one: int, two: int, best: Best)
    requires Settled(shuffled, before, after, one, two, best)
    ensures forall j: nat :: j < |shuffled| ==> after[shuffled[j].no].team == if Bit(best.combination, j) then one else two
    ensures OnOne(shuffled, after, one) == Choice(best.combination, |shuffled|)
  {
    if best.swaps == 0 {
      var picks := Split(shuffled, Choice(best.combination, |shuffled|));
      SwapsBounded(picks, one, two);
      forall j: nat | j < |shuffled|
        ensures after[shuffled[j].no].team == if Bit(best.combination, j) then one else two
      {
        assert Of(Swaps(one, two), picks[j]) == 0;
      }
    }
  }

  lemma {:induction false} FinalTeams(draws: seq<(nat, nat)>, before: seq<Player>, after: seq<Player>, one: int, two: int, best: Best)
    requires forall d :: d in draws ==> d.0 < |Records(before)| && d.1 < |Records(before)|
    requires Settled(Shuffled(Records(before), draws), before, after, one, two, best)
    requires OnlyTeamsChange(before, after)
    ensures Balanceable(Records(before)) ==>
              && (forall i :: 0 <= i < |after| && Playing(after[i]) ==> after[i].team in {one, two})
              && IsBalanced(Records(before), after, one, two)
    ensures !Balanceable(Records(before)) ==>
              forall i :: 0 <= i < |after| && Playing(after[i]) ==> after[i].team == one
  {
    var list := Records(before);
    var shuffled := Shuffled(list, draws);
    RecordsArePlayers(before);
    SearchFinds(shuffled, one, two, best);
    SidesAreTaken(shuffled, before, after, one, two, best);
    EverybodyIsListed(list, draws, before, after, one, two, best.combination);
    FoundMeansBalanceable(list, draws, one, two, best);
    if best.combination != -1 {
      var score := Score(best.value, best.swaps);
      ShuffleKeepsScore(list, draws, after, one, two);
      ShuffleKeepsLeast(list, draws, one, two, score);
      assert ScoreOf(Split(shuffled, OnOne(shuffled, after, one)), one, two) == score;
    }
  }

  lemma {:induction false} EverybodyIsListed(list: seq<Item>, draws: seq<(nat, nat)>, before: seq<Player>, after: seq<Player>,
                                             one: int, two: int, combination: int)
    requires list == Records(before) && OnlyTeamsChange(before, after) && combination >= -1
    requires forall d :: d in draws ==> d.0 < |list| && d.1 < |list|
    requires var r := Shuffled(list, draws);
             forall j: nat :: j < |r| ==> r[j].no < |after| && after[r[j].no].team == if Bit(combination, j) then one else two
    ensures forall i :: 0 <= i < |after| && Playing(after[i]) ==> after[i].team in {one, two}
    ensures combination == -1 ==> forall i :: 0 <= i < |after| && Playing(after[i]) ==> after[i].team == one
  {
    RecordsArePlayers(before);
    ShuffledItems(list, draws, before);
    var r := Shuffled(list, draws);
    forall i | 0 <= i < |after| && Playing(after[i])
      ensures after[i].team in {one, two} && (combination == -1 ==> after[i].team == one)
    {
      assert before[i].(team := after[i].team) == after[i];
      var item := Item(i, before[i].value, before[i].team);
      assert item in list && item in r;
      var k: nat :| k < |r| && r[k] == item;
    }
  }

  /** Whether the search finds anything does not depend on the shuffle either. */
  lemma {:induction false} FoundMeansBalanceable(list: seq<Item>, draws: seq<(nat, nat)>, one: int, two: int, best: Best)
    requires |list| <= 30 && forall d :: d in draws ==> d.0 < |list| && d.1 < |list|
    requires BestSoFar(Shuffled(list, draws), one, two, Pow2(|list|), best)
    requires NoneBetter(Shuffled(list, draws), one, two, Score(best.value, best.swaps))
    ensures best.combination != -1 <==> Balanceable(list)
  {
    var shuffled := Shuffled(list, draws);
    SearchFinds(shuffled, one, two, best);
    ShuffleKeepsLeast(list, draws, one, two, Score(best.value, best.swaps));
    ShuffleKeepsNoneBetter(list, draws, one, two, Score(best.value, best.swaps));
    if Balanceable(list) {
      var choice: seq<bool> :| |choice| == |list| && Even(Split(list, choice)) && Difference(Split(list, choice)) <= WORST;
      SwapsBounded(Split(list, choice), one, two);
      assert !Better(ScoreOf(Split(list, choice), one, two), Score(best.value, best.swaps));
    }
  }
}
