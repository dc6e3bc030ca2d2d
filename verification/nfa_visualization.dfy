/** The step renderer of the palindrome automaton: everything it shows is a
    pure function of the input string, the step counter and whether the
    animation is running. Steps 1..L push (reading forward), steps L+1..2L
    pop and compare (reading backward), and every later step shows the
    verdict. */
module Nfa {
  import opened Seqs

  /** q0 = start, q1 = push, q2 = pop and compare, then accept or reject. */
  datatype State = Q0 | Q1 | Q2 | Accept | Reject

  /** `Math.ceil(input.length / 2)`: the number of characters pushed. */
  function Midpoint(len: nat): (m: nat)
    ensures m <= len
    ensures len <= 2 * m <= len + 1
  {
    (len + 1) / 2
  }

  /** `input === input.split("").reverse().join("")`: equality with the
      reversal is the same as every character matching its mirror image. */
  function IsPalindrome(s: string): (b: bool)
    ensures b <==> forall i :: 0 <= i < |s| ==> s[i] == s[|s| - 1 - i]
  {
    assert forall i :: 0 <= i < |s| ==> Reverse(s)[i] == s[|s| - 1 - i];
    s == Reverse(s)
  }

  /** `getCurrentState`. */
  function CurrentState(input: string, step: nat): (st: State)
    ensures st == Q0 <==> step == 0
    ensures st == Q1 <==> 1 <= step <= |input|
    ensures st == Q2 <==> |input| < step <= 2 * |input|
    ensures st == Accept <==>
      step > 2 * |input| && forall i :: 0 <= i < |input| ==> input[i] == input[|input| - 1 - i]
    ensures st == Reject <==>
      step > 2 * |input| && exists i :: 0 <= i < |input| && input[i] != input[|input| - 1 - i]
  {
    if step == 0 then Q0
    else if step <= |input| then Q1
    else if step <= |input| * 2 then Q2
    else if IsPalindrome(input) then Accept
    else Reject
  }

  /** The order in which the diagram visits its states. */
  function Rank(st: State): nat
  {
    match st
    case Q0 => 0
    case Q1 => 1
    case Q2 => 2
    case _ => 3
  }

  /** The state never moves backwards as the step grows, and once past 2L
      it no longer changes. */
  lemma StateMonotone(input: string, j: nat, k: nat)
    requires j <= k
    ensures Rank(CurrentState(input, j)) <= Rank(CurrentState(input, k))
    ensures j > 2 * |input| ==> CurrentState(input, j) == CurrentState(input, k)
  {
  }

  /** The empty input is accepted at every step after the start. */
  lemma EmptyInputAccepts(step: nat)
    requires step > 0
    ensures CurrentState("", step) == Accept
  {
  }

  /** `processingIndex`: the input character read at this step, forward
      through the push phase and backward through the pop phase. */
  function ProcessingIndex(input: string, step: nat): (i: int)
    ensures 1 <= step <= 2 * |input| ==> 0 <= i < |input|
    ensures step == 0 || step > 2 * |input| ==> i < 0
  {
    if step <= |input| then step - 1 else |input| * 2 - step
  }

  /** The index rises by one per step through the push phase, repeats the
      last character at the turn, and falls by one per step through the pop
      phase down to the first character. */
  lemma ProcessingIndexSweep(input: string, step: nat)
    ensures 1 <= step < |input| ==>
      ProcessingIndex(input, step + 1) == ProcessingIndex(input, step) + 1
    ensures |input| < step < 2 * |input| ==>
      ProcessingIndex(input, step + 1) == ProcessingIndex(input, step) - 1
    ensures 1 <= |input| ==>
      ProcessingIndex(input, 1) == 0 &&
      ProcessingIndex(input, |input|) == ProcessingIndex(input, |input| + 1) == |input| - 1 &&
      ProcessingIndex(input, 2 * |input|) == 0
  {
  }

  /** Whether the character cell at `index` is drawn highlighted. */
  predicate IsHighlighted(input: string, step: nat, isAnimating: bool, index: nat)
  {
    ProcessingIndex(input, step) == index && isAnimating
  }

  /** The character cells that are drawn highlighted: while animating,
      exactly the one being read during the two scan phases, and none
      otherwise. */
  function HighlightedCells(input: string, step: nat, isAnimating: bool): (cells: set<nat>)
    ensures forall index :: index in cells ==> index < |input|
    ensures isAnimating && 1 <= step <= 2 * |input| ==>
      cells == {ProcessingIndex(input, step) as nat}
    ensures !isAnimating || step == 0 || step > 2 * |input| ==> cells == {}
  {
    set index: nat | index < |input| && IsHighlighted(input, step, isAnimating, index)
  }

  /** The stack drawn in q1: `input.slice(0, Math.min(step, midpoint))`. */
  function PushStack(input: string, step: nat): (stack: string)
    ensures |stack| == Min(step, Midpoint(|input|)) <= Midpoint(|input|)
    ensures stack == input[..|stack|]
  {
    input[..Min(step, Midpoint(|input|))]
  }

  /** The q1 stack only grows as the step advances. */
  lemma PushStackGrows(input: string, j: nat, k: nat)
    requires j <= k
    ensures PushStack(input, j) <= PushStack(input, k)
  {
  }

  /** The stack drawn in q2:
      `input.slice(0, midpoint).reverse().slice(step - input.length).reverse()`. */
  function PopStack(input: string, step: nat): (stack: string)
    ensures |stack| <= Midpoint(|input|)
    ensures |input| <= step ==>
      |stack| == Max(0, Midpoint(|input|) - (step - |input|))
  {
    Reverse(SliceFrom(Reverse(input[..Midpoint(|input|)]), step - |input|))
  }

  /** After `step - L` pops the q2 stack is the prefix of the input of length
      `midpoint - (step - L)`, or empty once that many pops exhaust it. */
  lemma PopStackIsPrefix(input: string, step: nat)
    requires |input| <= step
    ensures PopStack(input, step) == input[..Max(0, Midpoint(|input|) - (step - |input|))]
  {
    var mid := Midpoint(|input|);
    var t := input[..mid];
    var k := step - |input|;
    if k < mid {
      ReverseDropReverse(t, k);
      assert SliceFrom(Reverse(t), k) == Reverse(t)[k..];
    } else {
      assert SliceFrom(Reverse(t), k) == [];
    }
  }

  /** Each pop removes exactly the top entry; the stack is empty from step
      L + midpoint on. */
  lemma PopStackShrinks(input: string, step: nat)
    requires |input| <= step
    ensures PopStack(input, step + 1) <= PopStack(input, step)
    ensures |PopStack(input, step + 1)| == Max(0, |PopStack(input, step)| - 1)
    ensures step >= |input| + Midpoint(|input|) ==> PopStack(input, step) == []
  {
    PopStackIsPrefix(input, step);
    PopStackIsPrefix(input, step + 1);
  }

  /** The conceptual stack as drawn for the current state. */
  function StackView(input: string, step: nat): (stack: string)
    ensures |stack| <= Midpoint(|input|)
    ensures stack == input[..|stack|]
    ensures CurrentState(input, step) in {Q1, Q2} || stack == []
  {
    match CurrentState(input, step)
    case Q1 => PushStack(input, step)
    case Q2 => PopStackIsPrefix(input, step); PopStack(input, step)
    case _ => []
  }

  /** The stack shown in each phase, as a prefix of the input. */
  lemma StackViewByPhase(input: string, step: nat)
    ensures 1 <= step <= |input| ==>
      StackView(input, step) == input[..Min(step, Midpoint(|input|))]
    ensures |input| < step <= 2 * |input| ==>
      StackView(input, step) == input[..Max(0, Midpoint(|input|) - (step - |input|))]
    ensures step == 0 || step > 2 * |input| ==> StackView(input, step) == []
  {
    if |input| < step {
      PopStackIsPrefix(input, step);
    }
  }
}
