/** When skipmacro finds the end of the conditional it skips: a walk over the tree that counts
    its calls says so for every text, and a plain rule about what follows a conditional for text
    without braces in it. */
module DistressSkip {
  import opened Distress
  import opened DistressTree

  // ---- The walk ----

  /** Where skipmacro stands: how many calls deep, and whether its state is still set by the
      conditional it has just passed; or it has returned. */
  datatype Place = At(depth: nat, hot: bool) | Returned

  const START: Place := At(0, false)

  /** An opening; while the state is still set, its percent sign is lost, and so is the opening. */
  function Open(p: Place): Place {
    match p
    case At(depth, hot) => if hot then At(depth, false) else At(depth + 1, false)
    case Returned => p
  }

  /** A closing, which can be lost in the same way. */
  function Close(p: Place): Place {
    match p
    case At(depth, hot) => if hot then At(depth, false) else Leave(depth)
    case Returned => p
  }

  function Leave(depth: nat): Place {
    if depth == 0 then Returned else At(depth - 1, true)
  }

  function Cool(p: Place): Place {
    match p
    case At(depth, _) => At(depth, false)
    case Returned => p
  }

  /** A character; while the state is still set, a brace opens or closes without a percent sign. */
  function Read(c: char, p: Place): Place {
    match p
    case At(depth, hot) =>
      if hot && c == '{' then At(depth + 1, false) else if hot && c == '}' then Leave(depth) else At(depth, false)
    case Returned => p
  }

  function Walk(t: Text, p: Place): Place
    decreases t, 0
  {
    if p.Returned? then p
    else
      match t
      case End => p
      case Then(item, rest) => Walk(rest, WalkItem(item, p))
  }

  /** Doubled percent signs leave a set state set. */
  function WalkItem(item: Item, p: Place): Place
    decreases item, 1
  {
    match item
    case Lit(c) => Read(c, p)
    case Percent => p
    case _ => Close(WalkBody(item, Open(p)))
  }

  function WalkBody(item: Item, p: Place): Place
    requires Conditional(item)
    decreases item, 0
  {
    match item
    case When(yes) => Walk(yes, p)
    case Choice(yes, no) => Walk(no, Cool(Walk(yes, p)))
  }

  /** The walk from the opening of a conditional ends where it must, right before the closing. */
  predicate Passed(item: Item) {
    Conditional(item) ==> WalkBody(item, START) == START
  }

  // ---- The walk is what skipmacro does ----

  /** What is left of the text when all calls have returned. */
  function Left(s: string, p: Place): (r: string)
    requires p.At?
    ensures |r| <= |s| && (s != "" ==> |r| < |s|)
    decreases p.depth
  {
    if p.depth == 0 then Skip(s, p.hot)
    else
      var r := Skip(s, p.hot);
      SkipShrinks(s, p.hot);
      Left(r, At(p.depth - 1, true))
  }

  lemma {:induction false} SkipShrinks(s: string, state: bool)
    ensures s != "" ==> |Skip(s, state)| < |s|
  {
  }

  /** Reading `s` from `p` comes to reading `s'` from `p'`; or skipmacro has returned before `s'`. */
  ghost predicate Leads(s: string, p: Place, s': string, p': Place)
    requires p.At?
  {
    if p'.At? then Left(s, p) == Left(s', p') else |Left(s, p)| >= |s'|
  }

  lemma {:induction false} SkipChar(c: char, s: string, hot: bool)
    ensures !hot ==> Skip([c] + s, hot) == Skip(s, c == '%')
    ensures hot && c == '{' ==> Skip([c] + s, hot) == Skip(Skip(s, false), true)
    ensures hot && c == '}' ==> Skip([c] + s, hot) == s
    ensures hot && c != '{' && c != '}' ==> Skip([c] + s, hot) == Skip(s, false)
  {
    assert ([c] + s)[1..] == s;
  }

  lemma {:induction false} SkipPair(c: char, s: string, hot: bool)
    ensures Skip(['%', c] + s, hot) == if hot then Skip(s, c == '%') else Skip([c] + s, true)
  {
    assert ['%', c] + s == ['%'] + ([c] + s);
    SkipChar('%', [c] + s, hot);
    SkipChar(c, s, false);
  }

  lemma {:induction false} ReadLeads(c: char, s: string, p: Place)
    requires p.At? && c != '%'
    ensures Leads([c] + s, p, s, Read(c, p))
  {
    SkipChar(c, s, p.hot);
  }

  lemma {:induction false} PercentLeads(s: string, p: Place)
    requires p.At?
    ensures Leads("%%" + s, p, s, p)
  {
    SkipPair('%', s, p.hot);
    SkipChar('%', s, true);
  }

  lemma {:induction false} OpenLeads(s: string, p: Place)
    requires p.At?
    ensures Leads("%{" + s, p, s, Open(p))
  {
    SkipPair('{', s, p.hot);
    SkipChar('{', s, true);
  }

  lemma {:induction false} CloseLeads(s: string, p: Place)
    requires p.At?
    ensures Leads("%}" + s, p, s, Close(p))
    ensures p == START ==> Left("%}" + s, p) == s
  {
    SkipPair('}', s, p.hot);
    SkipChar('}', s, true);
  }

  lemma {:induction false} CoolLeads(s: string, p: Place)
    requires p.At?
    ensures Leads("%!" + s, p, s, Cool(p))
  {
    SkipPair('!', s, p.hot);
    SkipChar('!', s, true);
  }

  lemma {:induction false} WalkLeads(t: Text, s: string, p: Place)
    requires Plain(t) && p.At?
    ensures Leads(Print(t) + s, p, s, Walk(t, p))
    decreases t, 0
  {
    match t
    case End => assert Print(t) + s == s;
    case Then(item, rest) =>
      var more := Print(rest) + s;
      assert Print(t) + s == PrintItem(item) + more;
      WalkItemLeads(item, more, p);
      if WalkItem(item, p).At? { WalkLeads(rest, s, WalkItem(item, p)); }
  }

  lemma {:induction false} WalkItemLeads(item: Item, s: string, p: Place)
    requires PlainItem(item) && p.At?
    ensures Leads(PrintItem(item) + s, p, s, WalkItem(item, p))
    decreases item, 1
  {
    match item
    case Lit(c) => ReadLeads(c, s, p);
    case Percent => PercentLeads(s, p);
    case _ =>
      PrintSplits(item, s);
      OpenLeads(Body(item) + s, p);
      WalkBodyLeads(item, s, Open(p));
      if WalkBody(item, Open(p)).At? { CloseLeads(s, WalkBody(item, Open(p))); }
  }

  lemma {:induction false} WalkBodyLeads(item: Item, s: string, p: Place)
    requires Conditional(item) && PlainItem(item) && p.At?
    ensures Leads(Body(item) + s, p, "%}" + s, WalkBody(item, p))
    decreases item, 0
  {
    var last := "%}" + s;
    match item
    case When(yes) =>
      BodySplits(item, s);
      WalkLeads(yes, last, p);
    case Choice(yes, no) =>
      var second := Print(no) + last;
      BodySplits(item, s);
      WalkLeads(yes, "%!" + second, p);
      var p1 := Walk(yes, p);
      if p1.At? {
        CoolLeads(second, p1);
        WalkLeads(no, last, Cool(p1));
      }
  }

  /** Main result: skipmacro, called after the opening of a conditional in any plain text, leaves
      exactly what stands behind its closing, if and only if the walk of the conditional ends as
      it began (behind the last conditional of a text there is nothing to lose). */
  lemma {:induction false} SkipPassesExactly(item: Item, s: string)
    requires Conditional(item) && PlainItem(item)
    ensures Skip(Body(item) + s, false) == s <==> Passed(item) || (s == "" && WalkBody(item, START).At?)
  {
    var p := WalkBody(item, START);
    WalkBodyLeads(item, s, START);
    assert Skip(Body(item) + s, false) == Left(Body(item) + s, START);
    if p.At? {
      CloseLeads(s, p);
    }
  }

  // ---- Text without braces ----

  /** No literal is a brace. */
  predicate Braceless(t: Text) {
    match t
    case End => true
    case Then(item, rest) => BracelessItem(item) && Braceless(rest)
  }

  predicate BracelessItem(item: Item) {
    match item
    case Lit(c) => c != '{' && c != '}'
    case Percent => true
    case When(yes) => Braceless(yes)
    case Choice(yes, no) => Braceless(yes) && Braceless(no)
  }

  /** No two conditionals stand side by side, doubled percent signs aside: a lost opening can
      cancel a lost closing.  `after` says that a conditional stands just before. */
  predicate Apart(t: Text, after: bool) {
    match t
    case End => true
    case Then(item, rest) => (Conditional(item) ==> !after) && ApartItem(item) && Apart(rest, StillAfter(item, after))
  }

  predicate ApartItem(item: Item) {
    match item
    case Lit(_) => true
    case Percent => true
    case When(yes) => Apart(yes, false)
    case Choice(yes, no) => Apart(yes, false) && Apart(no, false)
  }

  predicate StillAfter(item: Item, after: bool) {
    Conditional(item) || (item.Percent? && after)
  }

  /** Each conditional is followed by a literal, doubled percent signs aside, or it is the last of
      a part that ends with "%!" instead of a closing. */
  predicate Followed(t: Text, after: bool, closing: bool) {
    match t
    case End => !(after && closing)
    case Then(item, rest) => FollowedInside(item) && Followed(rest, StillAfter(item, after), closing)
  }

  /** The same for all conditionals inside this one. */
  predicate FollowedInside(item: Item) {
    match item
    case Lit(_) => true
    case Percent => true
    case When(yes) => Followed(yes, false, true)
    case Choice(yes, no) => Followed(yes, false, false) && Followed(no, false, true)
  }

  /** The state is set only behind a conditional. */
  predicate HotAfter(p: Place, after: bool) {
    p.At? && (p.hot ==> after)
  }

  /** Openings are never lost, so the depth never falls; and the walk keeps its depth exactly when no
      closing is lost. */
  lemma {:induction false} WalkKeepsDepth(t: Text, p: Place, after: bool, closing: bool) returns (p': Place)
    requires Braceless(t) && Apart(t, after) && HotAfter(p, after)
    ensures p' == Walk(t, p) && p'.At? && p'.depth >= p.depth
    ensures p.hot == after ==> (Followed(t, after, closing) <==> p'.depth == p.depth && !(closing && p'.hot))
    decreases t, 0
  {
    match t
    case End => p' := p;
    case Then(item, rest) =>
      var p1 := WalkItemKeepsDepth(item, p, after);
      p' := WalkKeepsDepth(rest, p1, StillAfter(item, after), closing);
  }

  lemma {:induction false} WalkItemKeepsDepth(item: Item, p: Place, after: bool) returns (p': Place)
    requires BracelessItem(item) && ApartItem(item) && HotAfter(p, after) && (Conditional(item) ==> !after)
    ensures p' == WalkItem(item, p) && HotAfter(p', StillAfter(item, after)) && p'.depth >= p.depth
    ensures FollowedInside(item) ==> p'.depth == p.depth && (p.hot == after ==> p'.hot == StillAfter(item, after))
    ensures !FollowedInside(item) ==> p'.depth > p.depth
    decreases item, 1
  {
    p' := WalkItem(item, p);
    if Conditional(item) { var p1 := WalkBodyKeepsDepth(item, p.depth + 1); }
  }

  lemma {:induction false} WalkBodyKeepsDepth(item: Item, depth: nat) returns (p': Place)
    requires Conditional(item) && BracelessItem(item) && ApartItem(item)
    ensures p' == WalkBody(item, At(depth, false)) && p'.At? && p'.depth >= depth
    ensures FollowedInside(item) <==> p' == At(depth, false)
    decreases item, 0
  {
    match item
    case When(yes) => p' := WalkKeepsDepth(yes, At(depth, false), false, true);
    case Choice(yes, no) =>
      var p1 := WalkKeepsDepth(yes, At(depth, false), false, false);
      p' := WalkKeepsDepth(no, Cool(p1), false, true);
  }

  /** Main result: without braces and without neighbouring conditionals inside, a conditional can
      be skipped exactly if every conditional inside it is followed by a literal or ends a first
      part. */
  lemma {:induction false} PassedIsFollowed(item: Item)
    requires Conditional(item) && BracelessItem(item) && ApartItem(item)
    ensures Passed(item) <==> FollowedInside(item)
  {
    var p := WalkBodyKeepsDepth(item, 0);
  }

  /** The condition on neighbours is needed: in %{%{%}%{%{%}%}%} the opening lost behind the first
      conditional makes up for the closing lost at the end. */
  lemma {:induction false} NeighboursCancel()
    ensures var bare := When(End);
            var item := When(Then(bare, Then(When(Then(bare, End)), End)));
            BracelessItem(item) && Passed(item) && !FollowedInside(item)
  {
    var bare := When(End);
    var inner := Then(bare, End);
    assert WalkItem(bare, START) == At(0, true);
    assert WalkItem(bare, At(0, false)) == At(0, true);
    assert Walk(inner, START) == At(0, true);
    assert WalkItem(When(inner), At(0, true)) == START;
  }
}
