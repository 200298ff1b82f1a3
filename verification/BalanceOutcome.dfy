/** What the balancer achieves, in terms of the players alone: teams of even size with the smallest
    rating difference there is, and the fewest players moved for it. */
module BalanceOutcome {
  import opened Balance

  predicate InGame(p: Player) {
    !p.free && !p.robot
  }

  /** `after` puts every player in the game on one of two teams and changes nothing else. */
  ghost predicate Assigns(before: seq<Player>, after: seq<Player>, one: int, two: int) {
    && |after| == |before|
    && forall i :: 0 <= i < |before| ==>
         && after[i] == before[i].(team := after[i].team)
         && if InGame(before[i]) then after[i].team == one || after[i].team == two else after[i] == before[i]
  }

  ghost function Members(players: seq<Player>, t: int): set<int> {
    set i | 0 <= i < |players| && InGame(players[i]) && players[i].team == t
  }

  function Rating(players: seq<Player>, t: int): int {
    if players == [] then 0
    else
      var n := |players| - 1;
      Rating(players[..n], t) + if InGame(players[n]) && players[n].team == t then players[n].value else 0
  }

  ghost function Movers(before: seq<Player>, after: seq<Player>): set<int>
    requires |before| == |after|
  {
    set i | 0 <= i < |before| && InGame(before[i]) && after[i].team != before[i].team
  }

  ghost predicate EvenTeams(players: seq<Player>, one: int, two: int) {
    -1 <= |Members(players, one)| - |Members(players, two)| <= 1
  }

  function Gap(players: seq<Player>, one: int, two: int): int {
    var d := Rating(players, one) - Rating(players, two);
    if d < 0 then -d else d
  }

  // ---- The sums of a split are these ----

  /** The list names slots below `n`. */
  predicate Fits(list: seq<Item>, n: nat) {
    forall j :: 0 <= j < |list| ==> list[j].no < n
  }

  /** The list and the sides after one more slot. */
  lemma {:induction false} OneMore(before: seq<Player>, after: seq<Player>, one: int, two: int)
    requires Assigns(before, after, one, two) && before != []
    ensures var n := |before| - 1;
            var list, rest := Records(before), Records(before[..n]);
            && Assigns(before[..n], after[..n], one, two)
            && Fits(list, |after|) && Fits(rest, n)
            && OnOne(list, after, one) == OnOne(rest, after[..n], one) + if InGame(before[n]) then [after[n].team == one] else []
  {
    var n := |before| - 1;
    var list, rest := Records(before), Records(before[..n]);
    RecordsArePlayers(before);
    RecordsArePlayers(before[..n]);
    assert forall j :: 0 <= j < |list| ==> ItemMatches(list[j], before);
    assert forall j :: 0 <= j < |rest| ==> ItemMatches(rest[j], before[..n]) && list[j] == rest[j];
  }

  /** The split of the list that the teams in `after` make. */
  ghost function Picks(before: seq<Player>, after: seq<Player>, one: int): seq<Pick>
    requires Fits(Records(before), |after|)
  {
    Split(Records(before), OnOne(Records(before), after, one))
  }

  lemma {:induction false} PicksNext(before: seq<Player>, after: seq<Player>, one: int, two: int)
    requires Assigns(before, after, one, two) && before != []
    requires Fits(Records(before), |after|) && Fits(Records(before[..|before| - 1]), |after| - 1)
    ensures var n := |before| - 1;
            Picks(before, after, one) == Picks(before[..n], after[..n], one)
              + if InGame(before[n]) then [Pick(Item(n, before[n].value, before[n].team), after[n].team == one)] else []
  {
    OneMore(before, after, one, two);
  }

  lemma {:induction false} SumNext(m: Measure, picks: seq<Pick>, pick: Pick)
    ensures Sum(m, picks + [pick]) == Sum(m, picks) + Of(m, pick)
  {
    assert (picks + [pick])[..|picks|] == picks;
  }

  lemma {:induction false} MembersNext(players: seq<Player>, t: int)
    requires players != []
    ensures var n := |players| - 1;
            |Members(players, t)| == |Members(players[..n], t)| + if InGame(players[n]) && players[n].team == t then 1 else 0
  {
    var n := |players| - 1;
    var less := Members(players[..n], t);
    assert n !in less;
    assert Members(players, t) == if InGame(players[n]) && players[n].team == t then less + {n} else less;
  }

  lemma {:induction false} MoversNext(before: seq<Player>, after: seq<Player>)
    requires |before| == |after| > 0
    ensures var n := |before| - 1;
            |Movers(before, after)| == |Movers(before[..n], after[..n])|
                                       + if InGame(before[n]) && after[n].team != before[n].team then 1 else 0
  {
    var n := |before| - 1;
    var less := Movers(before[..n], after[..n]);
    assert n !in less;
    assert Movers(before, after) == if InGame(before[n]) && after[n].team != before[n].team then less + {n} else less;
  }

  ghost predicate Measures(picks: seq<Pick>, before: seq<Player>, after: seq<Player>, one: int, two: int)
    requires |before| == |after|
  {
    && Sum(CountOne, picks) == |Members(after, one)| && Sum(CountTwo, picks) == |Members(after, two)|
    && Sum(ValueOne, picks) == Rating(after, one) && Sum(ValueTwo, picks) == Rating(after, two)
    && Sum(Swaps(one, two), picks) == |Movers(before, after)|
  }

  lemma {:induction false} SumsAre(before: seq<Player>, after: seq<Player>, one: int, two: int)
    requires Assigns(before, after, one, two) && one != two
    ensures Fits(Records(before), |after|)
    ensures Measures(Picks(before, after, one), before, after, one, two)
  {
    if before != [] {
      var n := |before| - 1;
      OneMore(before, after, one, two);
      SumsAre(before[..n], after[..n], one, two);
      PicksNext(before, after, one, two);
      MeasuresStep(Picks(before[..n], after[..n], one), before, after, one, two);
    } else {
      assert Members(after, one) == {} && Members(after, two) == {} && Movers(before, after) == {};
    }
  }

  lemma {:induction false} MeasuresStep(rest: seq<Pick>, before: seq<Player>, after: seq<Player>, one: int, two: int)
    requires Assigns(before, after, one, two) && one != two && before != []
    requires Measures(rest, before[..|before| - 1], after[..|before| - 1], one, two)
    ensures var n := |before| - 1;
            var more := if InGame(before[n]) then [Pick(Item(n, before[n].value, before[n].team), after[n].team == one)] else [];
            Measures(rest + more, before, after, one, two)
  {
    var n := |before| - 1;
    MembersNext(after, one);
    MembersNext(after, two);
    MoversNext(before, after);
    assert after[n] == before[n].(team := after[n].team);
    if InGame(before[n]) {
      MeasuresNext(rest, Pick(Item(n, before[n].value, before[n].team), after[n].team == one), one, two);
    } else {
      assert rest + [] == rest;
    }
  }

  lemma {:induction false} MeasuresNext(picks: seq<Pick>, pick: Pick, one: int, two: int)
    ensures Sum(CountOne, picks + [pick]) == Sum(CountOne, picks) + if pick.first then 1 else 0
    ensures Sum(CountTwo, picks + [pick]) == Sum(CountTwo, picks) + if pick.first then 0 else 1
    ensures Sum(ValueOne, picks + [pick]) == Sum(ValueOne, picks) + if pick.first then pick.item.value else 0
    ensures Sum(ValueTwo, picks + [pick]) == Sum(ValueTwo, picks) + if pick.first then 0 else pick.item.value
    ensures Sum(Swaps(one, two), picks + [pick]) == Sum(Swaps(one, two), picks)
              + if pick.item.team == (if pick.first then one else two) then 0 else 1
  {
    SumNext(CountOne, picks, pick);
    SumNext(CountTwo, picks, pick);
    SumNext(ValueOne, picks, pick);
    SumNext(ValueTwo, picks, pick);
    SumNext(Swaps(one, two), picks, pick);
  }

  // ---- The outcome ----

  /** Main result: whenever the balancer finds a split, the teams it leaves are even, and no other
      even assignment of the players to the two teams has a smaller rating difference, or the same
      one with fewer players moved. */
  lemma {:induction false} BalanceIsBest(before: seq<Player>, after: seq<Player>, other: seq<Player>, one: int, two: int)
    requires one != two && OnlyTeamsChange(before, after) && IsBalanced(Records(before), after, one, two)
    requires forall i :: 0 <= i < |after| && Playing(after[i]) ==> after[i].team in {one, two}
    requires Assigns(before, other, one, two) && EvenTeams(other, one, two)
    ensures Assigns(before, after, one, two) && EvenTeams(after, one, two)
    ensures Gap(after, one, two) <= Gap(other, one, two)
    ensures Gap(after, one, two) == Gap(other, one, two) ==> |Movers(before, after)| <= |Movers(before, other)|
  {
    assert forall i :: 0 <= i < |before| ==> Playing(after[i]) == InGame(before[i]);
    SumsAre(before, after, one, two);
    SumsAre(before, other, one, two);
    var list := Records(before);
    var choice := OnOne(list, other, one);
    assert Even(Split(list, choice));
    assert !Better(ScoreOf(Split(list, choice), one, two), ScoreOf(Picks(before, after, one), one, two));
  }

  /** The teams a choice for the list stands for. */
  ghost function Chosen(before: seq<Player>, choice: seq<bool>, one: int, two: int): (r: seq<Player>)
    requires |choice| == |Records(before)|
  {
    seq(|before|, i requires 0 <= i < |before| =>
      if InGame(before[i]) then
        before[i].(team := if exists j :: 0 <= j < |choice| && Records(before)[j].no == i && choice[j] then one else two)
      else before[i])
  }

  /** Main result: the balancer finds a split if and only if some even assignment of the players to the
      two teams has a rating difference of at most 1 << 30. */
  lemma {:induction false} FindsExactly(before: seq<Player>, one: int, two: int)
    requires one != two
    ensures Balanceable(Records(before)) <==>
              exists other :: Assigns(before, other, one, two) && EvenTeams(other, one, two) && Gap(other, one, two) <= 0x4000_0000
  {
    var list := Records(before);
    if Balanceable(list) {
      var choice: seq<bool> :| |choice| == |list| && Even(Split(list, choice)) && Difference(Split(list, choice)) <= WORST;
      var other := Chosen(before, choice, one, two);
      SumsAre(before, other, one, two);
      ChosenIs(before, choice, one, two);
      assert EvenTeams(other, one, two) && Gap(other, one, two) <= 0x4000_0000;
    }
    if other :| Assigns(before, other, one, two) && EvenTeams(other, one, two) && Gap(other, one, two) <= 0x4000_0000 {
      SumsAre(before, other, one, two);
      var choice := OnOne(list, other, one);
      assert Even(Split(list, choice)) && Difference(Split(list, choice)) <= WORST;
    }
  }

  lemma {:induction false} ChosenIs(before: seq<Player>, choice: seq<bool>, one: int, two: int)
    requires |choice| == |Records(before)| && one != two
    requires Fits(Records(before), |before|)
    ensures OnOne(Records(before), Chosen(before, choice, one, two), one) == choice
  {
    var list, other := Records(before), Chosen(before, choice, one, two);
    RecordsArePlayers(before);
    forall j | 0 <= j < |list|
      ensures (other[list[j].no].team == one) == choice[j]
    {
      assert ItemMatches(list[j], before);
      forall k | 0 <= k < |list| && list[k].no == list[j].no ensures k == j { }
    }
  }
}
