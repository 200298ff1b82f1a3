/** What condmacro writes for tested text from any output, above all from none, as a distress
    call starts: whether the first part with conditionals that it leaves out finds something
    written decides, and that can be read off the text. */
module DistressStart {
  import opened Distress
  import opened DistressTree
  import opened DistressSkip
  import opened DistressText

  // ---- The output against the evaluator's ----

  /** The output ends with `out`, behind at most one character too many. */
  ghost predicate Trails(b: Out, out: string) {
    && Room(b) && |out| <= b.n <= |out| + 1
    && Shown(b)[b.n - |out|..] == out
  }

  /** The output has its extra character in the end: it had it before, or the text was not smooth. */
  ghost predicate EndsLate(b: Out, out: string, smooth: bool, b': Out, out': string) {
    && Trails(b, out) && Trails(b', out') && |b'.buf| == |b.buf|
    && (b'.n > |out'| <==> b.n > |out| || !smooth)
  }

  lemma {:induction false} LateChains(b: Out, out: string, s1: bool, b1: Out, out1: string, s2: bool, b2: Out, out2: string)
    requires EndsLate(b, out, s1, b1, out1) && EndsLate(b1, out1, s2, b2, out2)
    ensures EndsLate(b, out, s1 && s2, b2, out2)
  {
  }

  lemma {:induction false} PutLate(b: Out, out: string, c: char)
    requires Trails(b, out) && b.n < MAXMACLEN
    ensures EndsLate(b, out, true, Put(b, c), out + [c])
  {
    assert Shown(Put(b, c)) == Shown(b) + [c];
  }

  lemma {:induction false} PopLate(b: Out, out: string)
    requires Trails(b, out) && out != ""
    ensures EndsLate(b, out, true, Popped(b), WithoutTest(out)) && Test(b) == Holds(out)
  {
    assert Shown(b)[b.n - |out|..][|out| - 1] == b.buf[b.n - 1];
  }

  /** The output after a part that is left out. */
  function LeftOut(t: Text, b: Out): Out {
    if HasConditional(t) then Unpopped(b) else b
  }

  lemma {:induction false} LeftOutLate(t: Text, b: Out, out: string)
    requires Trails(b, out)
    ensures EndsLate(b, out, Skips(t, out), LeftOut(t, b), out)
  {
  }

  // ---- Tested text ----

  predicate IsDigit(item: Item) {
    item.Lit? && (item.c == '0' || item.c == '1')
  }

  lemma {:induction false} Run(t: Text, s: string, b: Out, flag: bool, digit: bool, out: string) returns (b': Out)
    requires Plain(t) && Safe(t) && Tested(t, digit) && Trails(b, out)
    requires |out| >= Taken(digit) && b.n + |Print(t)| < MAXMACLEN
    ensures EndsLate(b, out, Smooth(t, out), b', Eval(t, out))
    ensures b'.n <= b.n + |Print(t)| && |Eval(t, out)| >= |out| - Taken(digit)
    ensures Cond(Print(t) + s, b, flag, true, false) == Cond(s, b', flag, true, false)
    decreases t, 0
  {
    match t
    case End =>
      assert Print(t) + s == s;
      b' := b;
    case Then(item, rest) =>
      var more := Print(rest) + s;
      assert Print(t) + s == PrintItem(item) + more;
      var out1 := EvalItem(item, out);
      var b1 := RunItem(item, more, b, flag, digit, out);
      b' := Run(rest, s, b1, flag, IsDigit(item), out1);
      LateChains(b, out, SmoothItem(item, out), b1, out1, Smooth(rest, out1), b', Eval(t, out));
  }

  lemma {:induction false} RunItem(item: Item, more: string, b: Out, flag: bool, digit: bool, out: string) returns (b': Out)
    requires PlainItem(item) && SafeItem(item) && TestedItem(item, digit) && Trails(b, out)
    requires |out| >= Taken(digit) && b.n + |PrintItem(item)| < MAXMACLEN
    ensures EndsLate(b, out, SmoothItem(item, out), b', EvalItem(item, out))
    ensures b'.n <= b.n + |PrintItem(item)|
    ensures |EvalItem(item, out)| >= if Conditional(item) then |out| - 1 else |out| + 1
    ensures Cond(PrintItem(item) + more, b, flag, true, false) == Cond(more, b', flag, true, false)
    decreases item, 4
  {
    match item
    case Lit(c) =>
      b' := Put(b, c);
      PutLate(b, out, c);
      StepLit(c, more, b, flag, true);
    case Percent =>
      b' := Put(b, '%');
      PutLate(b, out, '%');
      StepPercent(more, b, flag, true);
    case _ =>
      PrintSplits(item, more);
      StepOpen(Body(item) + more, b, flag, true);
      PopLate(b, out);
      b' := RunBody(item, more, Popped(b), out);
      LateChains(b, out, true, Popped(b), WithoutTest(out), SmoothItem(item, out), b', EvalItem(item, out));
  }

  /** A conditional whose test has been taken from the output. */
  lemma {:induction false} RunBody(item: Item, more: string, b: Out, out: string) returns (b': Out)
    requires Conditional(item) && PlainItem(item) && SafeItem(item) && TestedItem(item, true)
    requires out != "" && Trails(b, WithoutTest(out)) && b.n + |Body(item)| < MAXMACLEN
    ensures EndsLate(b, WithoutTest(out), SmoothItem(item, out), b', EvalItem(item, out))
    ensures b'.n <= b.n + |Body(item)| && |EvalItem(item, out)| >= |out| - 1
    ensures Cond(Body(item) + more, b, Holds(out), Holds(out), false) == (more, b')
    decreases item, 3
  {
    match item
    case When(yes) =>
      b' := RunWhen(yes, "%}" + more, b, Holds(out), WithoutTest(out));
      BodySplits(item, more);
      StepClose(more, b', Holds(out), Holds(out));
    case Choice(yes, no) =>
      b' := RunChoice(yes, no, "%}" + more, b, Holds(out), WithoutTest(out));
      BodySplits(item, more);
      StepClose(more, b', Holds(out), !Holds(out));
  }

  lemma {:induction false} RunWhen(yes: Text, last: string, b: Out, flag: bool, out: string) returns (b': Out)
    requires Plain(yes) && Safe(yes) && Skippable(yes) && Tested(yes, false)
    requires Trails(b, out) && b.n + |Print(yes)| < MAXMACLEN
    ensures EndsLate(b, out, if flag then Smooth(yes, out) else Skips(yes, out), b', if flag then Eval(yes, out) else out)
    ensures b'.n <= b.n + |Print(yes)| && (flag ==> |Eval(yes, out)| >= |out|)
    ensures Cond(Print(yes) + last, b, flag, flag, false) == Cond(last, b', flag, flag, false)
    decreases When(yes), 2
  {
    if flag {
      b' := Run(yes, last, b, flag, false, out);
    } else {
      b' := RunLeftOut(yes, last, b, flag, out);
    }
  }

  /** Both parts of a conditional, of which one is taken. */
  lemma {:induction false} RunChoice(yes: Text, no: Text, last: string, b: Out, flag: bool, out: string) returns (b': Out)
    requires Plain(yes) && Safe(yes) && Skippable(yes) && Tested(yes, false)
    requires Plain(no) && Safe(no) && Skippable(no) && Tested(no, false)
    requires Trails(b, out) && b.n + |Print(yes)| + |Print(no)| < MAXMACLEN
    ensures EndsLate(b, out,
                     if flag then Smooth(yes, out) && Skips(no, Eval(yes, out)) else Skips(yes, out) && Smooth(no, out),
                     b', Eval(if flag then yes else no, out))
    ensures b'.n <= b.n + |Print(yes)| + |Print(no)| && |Eval(if flag then yes else no, out)| >= |out|
    ensures Cond(Print(yes) + ("%!" + (Print(no) + last)), b, flag, flag, false) == Cond(last, b', flag, !flag, false)
    decreases Choice(yes, no), 2
  {
    if flag {
      b' := RunFirst(yes, no, last, b, flag, out);
    } else {
      b' := RunSecond(yes, no, last, b, flag, out);
    }
  }

  lemma {:induction false} RunLeftOut(t: Text, s: string, b: Out, flag: bool, out: string) returns (b': Out)
    requires Plain(t) && Skippable(t) && Trails(b, out) && b.n < MAXMACLEN
    ensures EndsLate(b, out, Skips(t, out), b', out) && b'.n <= b.n + |Print(t)|
    ensures Cond(Print(t) + s, b, flag, false, false) == Cond(s, b', flag, false, false)
  {
    b' := LeftOut(t, b);
    PartLeftOut(t, s, b, flag);
    LeftOutLate(t, b, out);
    if HasConditional(t) { NotEmpty(t); }
  }

  lemma {:induction false} NotEmpty(t: Text)
    requires t.Then?
    ensures Print(t) != ""
  {
  }

  /** The first part is taken, the second left out. */
  lemma {:induction false} RunFirst(yes: Text, no: Text, last: string, b: Out, flag: bool, out: string) returns (b': Out)
    requires Plain(yes) && Safe(yes) && Tested(yes, false) && Plain(no) && Skippable(no)
    requires flag && Trails(b, out) && b.n + |Print(yes)| + |Print(no)| < MAXMACLEN
    ensures EndsLate(b, out, Smooth(yes, out) && Skips(no, Eval(yes, out)), b', Eval(yes, out))
    ensures b'.n <= b.n + |Print(yes)| + |Print(no)| && |Eval(yes, out)| >= |out|
    ensures Cond(Print(yes) + ("%!" + (Print(no) + last)), b, flag, flag, false) == Cond(last, b', flag, !flag, false)
    decreases Choice(yes, no), 1
  {
    var out1 := Eval(yes, out);
    var second := Print(no) + last;
    var b1 := Run(yes, "%!" + second, b, flag, false, out);
    StepBang(second, b1, flag, flag);
    b' := RunLeftOut(no, last, b1, flag, out1);
    LateChains(b, out, Smooth(yes, out), b1, out1, Skips(no, out1), b', out1);
  }

  /** The first part is left out, the second taken. */
  lemma {:induction false} RunSecond(yes: Text, no: Text, last: string, b: Out, flag: bool, out: string) returns (b': Out)
    requires Plain(no) && Safe(no) && Tested(no, false) && Plain(yes) && Skippable(yes)
    requires !flag && Trails(b, out) && b.n + |Print(yes)| + |Print(no)| < MAXMACLEN
    ensures EndsLate(b, out, Skips(yes, out) && Smooth(no, out), b', Eval(no, out))
    ensures b'.n <= b.n + |Print(yes)| + |Print(no)| && |Eval(no, out)| >= |out|
    ensures Cond(Print(yes) + ("%!" + (Print(no) + last)), b, flag, flag, false) == Cond(last, b', flag, !flag, false)
    decreases Choice(yes, no), 1
  {
    var second := Print(no) + last;
    var b1 := RunLeftOut(yes, "%!" + second, b, flag, out);
    assert EndsLate(b, out, Skips(yes, out), b1, out);
    StepBang(second, b1, flag, flag);
    b' := Run(no, last, b1, flag, false, out);
    LateChains(b, out, Skips(yes, out), b1, out, Smooth(no, out), b', Eval(no, out));
  }

  /** Main result: for tested text whose skipped conditionals are safe, and any output with room for
      it, condmacro writes what the evaluator says exactly if something is written whenever a part
      with conditionals is left out; otherwise its output is one character too long, and right
      behind that character. */
  lemma {:induction false} TestedIsExact(t: Text, b: Out)
    requires Plain(t) && Safe(t) && Tested(t, false) && Room(b) && b.n + |Print(t)| < MAXMACLEN
    ensures var r, said := Cond(Print(t), b, true, true, false), Eval(t, Shown(b));
            && r.0 == ""
            && (Shown(r.1) == said <==> Smooth(t, Shown(b)))
            && (!Smooth(t, Shown(b)) ==> |Shown(r.1)| == |said| + 1 && Shown(r.1)[1..] == said)
  {
    var b' := Run(t, "", b, true, false, Shown(b));
    assert Print(t) + "" == Print(t);
  }

  // ---- From nothing, read off the text ----

  /** Evaluated from nothing, tested text leaves nothing: each test digit is taken away by its
      conditional, and so is every part taken. */
  predicate Nothing(t: Text) {
    match t
    case End => true
    case Then(item, rest) =>
      item.Lit? && rest.Then? && Conditional(rest.head) && NothingTaken(rest.head, item.c != '0') && Nothing(rest.tail)
  }

  predicate NothingTaken(item: Item, holds: bool) {
    match item
    case When(yes) => holds ==> Nothing(yes)
    case Choice(yes, no) => if holds then Nothing(yes) else Nothing(no)
    case _ => false
  }

  /** Evaluated from nothing, tested text has written something before it leaves out a part with
      conditionals. */
  predicate Starts(t: Text) {
    match t
    case End => true
    case Then(item, rest) =>
      item.Lit? && rest.Then? && Conditional(rest.head) ==>
        var holds := item.c != '0';
        StartsInside(rest.head, holds) && (NothingTaken(rest.head, holds) ==> Starts(rest.tail))
  }

  predicate StartsInside(item: Item, holds: bool) {
    match item
    case When(yes) => if holds then Starts(yes) else !HasConditional(yes)
    case Choice(yes, no) =>
      if holds then Starts(yes) && (HasConditional(no) ==> !Nothing(yes)) else !HasConditional(yes) && Starts(no)
    case _ => true
  }

  lemma {:induction false} StartsIsSmooth(t: Text)
    requires Tested(t, false) && |Print(t)| < MAXMACLEN
    ensures Smooth(t, "") <==> Starts(t)
    ensures Eval(t, "") == "" <==> Nothing(t)
    decreases t, 1
  {
    match t
    case End =>
    case Then(item, rest) =>
      TestedFollows(item, rest);
      if item.Lit? && rest.Then? && Conditional(rest.head) {
        StartsBehindDigit(item.c, rest, "");
      } else {
        TestedIsSmooth(rest, EvalItem(item, ""), false);
      }
  }

  /** A conditional, its digit, and the text behind. */
  lemma {:induction false} StartsBehindDigit(c: char, rest: Text, out: string)
    requires rest.Then? && Conditional(rest.head) && TestedItem(rest.head, true) && Tested(rest.tail, false)
    requires out == "" && 1 + |Print(rest)| < MAXMACLEN
    ensures Smooth(Then(Lit(c), rest), out) <==> Starts(Then(Lit(c), rest))
    ensures Eval(Then(Lit(c), rest), out) == "" <==> Nothing(Then(Lit(c), rest))
    decreases rest, 2
  {
    var item, more := rest.head, rest.tail;
    var first := out + [c];
    FirstConditional(c, item);
    assert first == [c];
    var out1 := EvalItem(item, first);
    assert Eval(Then(Lit(c), rest), out) == Eval(more, out1);
    assert Smooth(Then(Lit(c), rest), out) <==> SmoothItem(item, first) && Smooth(more, out1);
    if NothingTaken(item, c != '0') {
      StartsIsSmooth(more);
    } else {
      TestedIsSmooth(more, out1, false);
    }
  }

  /** A conditional follows a digit, and other text does not need one. */
  lemma {:induction false} TestedFollows(item: Item, rest: Text)
    requires Tested(rest, IsDigit(item))
    ensures rest.Then? && Conditional(rest.head) ==> IsDigit(item) && TestedItem(rest.head, true) && Tested(rest.tail, false)
    ensures !(rest.Then? && Conditional(rest.head)) ==> Tested(rest, false)
  {
    if rest.Then? { assert TestedItem(rest.head, IsDigit(item)); }
  }

  /** The conditional behind a digit that stands at the beginning. */
  lemma {:induction false} FirstConditional(c: char, item: Item)
    requires Conditional(item) && TestedItem(item, true) && |PrintItem(item)| + 1 < MAXMACLEN
    ensures SmoothItem(item, [c]) <==> StartsInside(item, c != '0')
    ensures EvalItem(item, [c]) == "" <==> NothingTaken(item, c != '0')
    ensures |EvalItem(item, [c])| <= |PrintItem(item)|
    decreases item
  {
    match item
    case When(yes) =>
      StartsIsSmooth(yes);
      EvalFits(yes, "");
    case Choice(yes, no) =>
      StartsIsSmooth(yes);
      StartsIsSmooth(no);
      EvalFits(yes, "");
      EvalFits(no, "");
  }

  lemma {:induction false} EvalFits(t: Text, out: string)
    ensures |Eval(t, out)| <= |out| + |Print(t)|
    decreases t
  {
    if t.Then? {
      EvalItemFits(t.head, out);
      EvalFits(t.tail, EvalItem(t.head, out));
    }
  }

  lemma {:induction false} EvalItemFits(item: Item, out: string)
    ensures |EvalItem(item, out)| <= |out| + |PrintItem(item)|
    decreases item
  {
    match item
    case When(yes) => EvalFits(yes, WithoutTest(out));
    case Choice(yes, no) => EvalFits(if Holds(out) then yes else no, WithoutTest(out));
    case _ =>
  }

  /** Main result: from nothing, tested text nested at most two deep comes out exactly as the
      evaluator says if and only if its text has written something before it leaves out a part
      with conditionals. */
  lemma {:induction false} FromNothingExactly(t: Text, b: Out)
    requires Plain(t) && Depth(t) <= 2 && Tested(t, false) && Room(b) && b.n == 0 && |Print(t)| < MAXMACLEN
    ensures var r := Cond(Print(t), b, true, true, false);
            r.0 == "" && (Shown(r.1) == Eval(t, "") <==> Starts(t))
  {
    TwoDeepIsSafe(t);
    assert Shown(b) == "";
    TestedIsExact(t, b);
    StartsIsSmooth(t);
  }

  /** So it does if the text starts with an ordinary character that is no test digit, or with a
      percent sign. */
  lemma {:induction false} TwoDeepFromNothing(t: Text, b: Out)
    requires Plain(t) && Depth(t) <= 2 && Tested(t, false) && Room(b)
    requires t.Then? && (t.head.Percent? || (t.head.Lit? && t.head.c != '0' && t.head.c != '1'))
    requires b.n == 0 && |Print(t)| < MAXMACLEN
    ensures var r := Cond(Print(t), b, true, true, false);
            r.0 == "" && Shown(r.1) == Eval(t, "")
  {
    TestedFollows(t.head, t.tail);
    FromNothingExactly(t, b);
  }
}
