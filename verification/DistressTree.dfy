/** Conditional text as a tree: how it is written in a macro, and what it means. */
module DistressTree {

  /** Plain characters, percent signs (written twice), and conditionals without and with a second part. */
  datatype Text = End | Then(head: Item, tail: Text)
  datatype Item = Lit(c: char) | Percent | When(yes: Text) | Choice(yes: Text, no: Text)

  function Print(t: Text): string {
    match t
    case End => ""
    case Then(item, rest) => PrintItem(item) + Print(rest)
  }

  function PrintItem(item: Item): string {
    match item
    case Lit(c) => [c]
    case Percent => "%%"
    case When(yes) => "%{" + Print(yes) + "%}"
    case Choice(yes, no) => "%{" + Print(yes) + "%!" + Print(no) + "%}"
  }

  /** A conditional without its opening. */
  function Body(item: Item): string
    requires Conditional(item)
  {
    match item
    case When(yes) => Print(yes) + "%}"
    case Choice(yes, no) => Print(yes) + "%!" + Print(no) + "%}"
  }

  lemma {:induction false} PrintSplits(item: Item, more: string)
    requires Conditional(item)
    ensures PrintItem(item) + more == "%{" + (Body(item) + more)
  {
  }

  lemma {:induction false} BodySplits(item: Item, more: string)
    ensures item.When? ==> Body(item) + more == Print(item.yes) + ("%}" + more)
    ensures item.Choice? ==> Body(item) + more == Print(item.yes) + ("%!" + (Print(item.no) + ("%}" + more)))
  {
  }

  predicate Conditional(item: Item) {
    item.When? || item.Choice?
  }

  predicate HasConditional(t: Text) {
    t.Then? && (Conditional(t.head) || HasConditional(t.tail))
  }

  /** No literal is a percent sign. */
  predicate Plain(t: Text) {
    match t
    case End => true
    case Then(item, rest) => PlainItem(item) && Plain(rest)
  }

  predicate PlainItem(item: Item) {
    match item
    case Lit(c) => c != '%'
    case Percent => true
    case When(yes) => Plain(yes)
    case Choice(yes, no) => Plain(yes) && Plain(no)
  }

  function Depth(t: Text): nat {
    match t
    case End => 0
    case Then(item, rest) => Max(DepthItem(item), Depth(rest))
  }

  function DepthItem(item: Item): nat {
    match item
    case Lit(_) => 0
    case Percent => 0
    case When(yes) => 1 + Depth(yes)
    case Choice(yes, no) => 1 + Max(Depth(yes), Depth(no))
  }

  function Max(a: nat, b: nat): nat {
    if a < b then b else a
  }

  // ---- The evaluator ----

  /** The digit a test wrote decides, and disappears; without anything written, the test holds. */
  predicate Holds(out: string) {
    out == "" || out[|out| - 1] != '0'
  }

  function WithoutTest(out: string): string {
    if out == "" then out else out[..|out| - 1]
  }

  function Eval(t: Text, out: string): string {
    match t
    case End => out
    case Then(item, rest) => Eval(rest, EvalItem(item, out))
  }

  function EvalItem(item: Item, out: string): string {
    match item
    case Lit(c) => out + [c]
    case Percent => out + "%"
    case When(yes) => if Holds(out) then Eval(yes, WithoutTest(out)) else WithoutTest(out)
    case Choice(yes, no) => Eval(if Holds(out) then yes else no, WithoutTest(out))
  }
}
