/** The controller of the palindrome checker: it owns the sanitised input,
    the published result, the step counter shown by the renderer and the
    animating flag, and drives the step counter from a repeating timer. */
module Checker {
  import opened Seqs
  import Nfa

  /** The longest input the text field stores. */
  const MAX_LENGTH: nat := 7

  /** The published result, `"accept" | "reject"`. */
  datatype Verdict = Accept | Reject

  datatype Option<T> = None | Some(value: T)

  predicate IsLowerLetter(c: char)
  {
    'a' <= c <= 'z'
  }

  /** What the input field may hold: lower-case ASCII letters only. */
  predicate IsLowerWord(s: string)
  {
    forall i :: 0 <= i < |s| ==> IsLowerLetter(s[i])
  }

  /** `toLowerCase` on one character, restricted to ASCII. */
  function LowerAscii(c: char): (d: char)
    ensures !('A' <= d <= 'Z')
    ensures IsLowerLetter(d) <==> IsLowerLetter(c) || 'A' <= c <= 'Z'
    ensures 'A' <= c <= 'Z' ==> d as int - 'a' as int == c as int - 'A' as int
    ensures !('A' <= c <= 'Z') ==> d == c
  {
    if 'A' <= c <= 'Z' then (c as int - 'A' as int + 'a' as int) as char else c
  }

  /** `toLowerCase` on a string, restricted to ASCII. */
  function ToLower(s: string): (r: string)
    ensures |r| == |s|
    ensures forall i :: 0 <= i < |s| ==> r[i] == LowerAscii(s[i])
  {
    if s == [] then [] else [LowerAscii(s[0])] + ToLower(s[1..])
  }

  /** `replace(/[^a-z]/g, "")`: keeps the lower-case letters, in order, and
      drops everything else. */
  function KeepLetters(s: string): (r: string)
    ensures IsLowerWord(r)
    ensures |r| <= |s|
  {
    if s == [] then []
    else
      (if IsLowerLetter(s[0]) then [s[0]] else []) + KeepLetters(s[1..])
  }

  /** The filter keeps every occurrence of every lower-case letter (and,
      by its contract, nothing else). */
  lemma {:induction false} KeepLettersCounts(s: string, c: char)
    requires IsLowerLetter(c)
    ensures multiset(KeepLetters(s))[c] == multiset(s)[c]
  {
    if s != [] {
      KeepLettersCounts(s[1..], c);
      assert s == [s[0]] + s[1..];
    }
  }

  /** A single character passes the filter exactly when it is a letter
      `a`-`z`. */
  lemma KeepLettersSingle(c: char)
    ensures KeepLetters([c]) == if IsLowerLetter(c) then [c] else []
  {
    assert [c][1..] == [];
  }

  /** The filter works piece by piece, so it keeps the letters in their
      original order. */
  lemma {:induction false} KeepLettersAppend(a: string, b: string)
    ensures KeepLetters(a + b) == KeepLetters(a) + KeepLetters(b)
  {
    if a != [] {
      assert (a + b)[0] == a[0];
      assert (a + b)[1..] == a[1..] + b;
      KeepLettersAppend(a[1..], b);
    } else {
      assert a + b == b;
    }
  }

  /** Text that is already clean passes the filter unchanged. */
  lemma {:induction false} KeepLettersOnClean(s: string)
    requires IsLowerWord(s)
    ensures KeepLetters(s) == s
  {
    if s != [] {
      KeepLettersOnClean(s[1..]);
    }
  }

  /** The text the field keeps from a raw value: lower-cased, then filtered
      to `a`-`z`. Already clean text is kept as it is, so sanitising twice
      is sanitising once. */
  function Sanitise(raw: string): (v: string)
    ensures IsLowerWord(v)
    ensures |v| <= |raw|
    ensures IsLowerWord(raw) ==> v == raw
  {
    CleanPassesThrough(raw);
    KeepLetters(ToLower(raw))
  }

  /** Lower-casing and filtering leave clean text as it is. */
  lemma CleanPassesThrough(raw: string)
    ensures IsLowerWord(raw) ==> KeepLetters(ToLower(raw)) == raw
  {
    if IsLowerWord(raw) {
      assert ToLower(raw) == raw;
      KeepLettersOnClean(raw);
    }
  }

  /** One raw character leaves its lower-case form when it is a letter of
      either case, and nothing otherwise. */
  lemma SanitiseSingle(c: char)
    ensures Sanitise([c]) ==
      if IsLowerLetter(c) || 'A' <= c <= 'Z' then [LowerAscii(c)] else []
  {
    assert ToLower([c]) == [LowerAscii(c)];
    KeepLettersSingle(LowerAscii(c));
  }

  /** Sanitising works piece by piece: the kept letters stay in the order
      they were typed. */
  lemma SanitiseAppend(a: string, b: string)
    ensures Sanitise(a + b) == Sanitise(a) + Sanitise(b)
  {
    assert ToLower(a + b) == ToLower(a) + ToLower(b);
    KeepLettersAppend(ToLower(a), ToLower(b));
  }

  /** `checkPalindrome`: false for the empty string and for anything longer
      than the field holds; otherwise whether the string reads the same in
      both directions. */
  function CheckPalindrome(s: string): (r: bool)
    ensures r <==>
      0 < |s| <= MAX_LENGTH && forall i :: 0 <= i < |s| ==> s[i] == s[|s| - 1 - i]
  {
    if |s| == 0 || |s| > MAX_LENGTH then false
    else Nfa.IsPalindrome(s)
  }

  /** `isPalindrome ? "accept" : "reject"`. */
  function VerdictFor(s: string): (v: Verdict)
    ensures v == Accept <==>
      0 < |s| <= MAX_LENGTH && forall i :: 0 <= i < |s| ==> s[i] == s[|s| - 1 - i]
  {
    if CheckPalindrome(s) then Accept else Reject
  }

  /** The renderer's final state that shows a verdict. */
  function Shown(v: Verdict): Nfa.State
  {
    match v
    case Accept => Nfa.Accept
    case Reject => Nfa.Reject
  }

  /** For every input the field can hold and the checker can be started on,
      the state the renderer derives after the last push and pop agrees with
      the verdict the controller publishes. */
  lemma FinalStateAgreesWithVerdict(s: string, step: nat)
    requires 0 < |s| <= MAX_LENGTH
    requires step > 2 * |s|
    ensures Nfa.CurrentState(s, step) == Shown(VerdictFor(s))
  {
  }

  /** The palindrome checker's state, together with the state captured by
      the running interval callback. */
  class Controller {
    var input: string
    var result: Option<Verdict>
    var currentStep: nat
    var isAnimating: bool

    // The interval: whether it is scheduled, and the variables its callback
    // captured (`step`, `steps`, `isPalindrome`).
    var timerRunning: bool
    var step: nat
    var steps: nat
    var isPalindrome: bool

    // The dependencies `[input, isAnimating]` as the passive effect last
    // saw them; React runs the effect again only when one of them differs.
    var effectInput: string
    var effectAnimating: bool

    /** The input is always clean and short; exactly one timer runs while
        animating, and its counter is the step on show; once an animation
        has finished, the result published matches the input. */
    ghost predicate Valid()
      reads this
    {
      && IsLowerWord(input) && |input| <= MAX_LENGTH
      && timerRunning == isAnimating
      && (isAnimating ==>
            && 0 < |input|
            && steps == 2 * |input| + 1
            && isPalindrome == CheckPalindrome(input)
            && step == currentStep < steps)
      && (!isAnimating && currentStep != 0 ==>
            && 0 < |input|
            && currentStep == 2 * |input| + 1
            && result == Some(VerdictFor(input)))
    }

    /** The state the renderer shows for the current fields. */
    function Displayed(): Nfa.State
      reads this
    {
      Nfa.CurrentState(input, currentStep)
    }

    /** The effect has seen the current values of its dependencies, so it
        will not run again until one of them changes. */
    predicate DepsSeen()
      reads this
    {
      effectInput == input && effectAnimating == isAnimating
    }

    /** The initial state of the component. */
    constructor ()
      ensures Valid()
      ensures input == "" && result == None && currentStep == 0 && !isAnimating
      ensures !timerRunning && DepsSeen()
    {
      input := "";
      result := None;
      currentStep := 0;
      isAnimating := false;
      timerRunning := false;
      step := 0;
      steps := 0;
      isPalindrome := false;
      effectInput := "";
      effectAnimating := false;
    }

    /** `handleInputChange`, given the field's raw value. The field is
        disabled while animating. A sanitised value that is too long is
        ignored. */
    method HandleInputChange(raw: string)
      requires Valid() && !isAnimating
      modifies this`input, this`result, this`currentStep
      ensures Valid()
      ensures |Sanitise(raw)| <= MAX_LENGTH ==>
        input == Sanitise(raw) && result == None && currentStep == 0
      ensures |Sanitise(raw)| > MAX_LENGTH ==>
        input == old(input) && result == old(result) && currentStep == old(currentStep)
    {
      var value := Sanitise(raw);
      if |value| <= MAX_LENGTH {
        input := value;
        result := None;
        currentStep := 0;
      }
    }

    /** `handleCheck`: does nothing on empty input; otherwise fixes the
        verdict, rewinds the step counter and schedules the interval for
        2L+1 ticks. The Check button is disabled while animating. */
    method HandleCheck()
      requires Valid() && !isAnimating
      modifies this`isAnimating, this`currentStep, this`timerRunning,
        this`step, this`steps, this`isPalindrome
      ensures Valid()
      ensures old(input) == "" ==>
        !isAnimating && !timerRunning && currentStep == old(currentStep) &&
        step == old(step) && steps == old(steps) && isPalindrome == old(isPalindrome)
      ensures old(input) != "" ==>
        isAnimating && timerRunning && currentStep == 0 && step == 0 &&
        steps == 2 * |input| + 1 && isPalindrome == CheckPalindrome(input)
    {
      if |input| == 0 {
        return;
      }
      isAnimating := true;
      currentStep := 0;
      isPalindrome := CheckPalindrome(input);
      steps := |input| * 2 + 1;
      step := 0;
      timerRunning := true;
    }

    /** One firing of the interval callback: advances the counter and shows
        it; on the last tick it clears the interval, publishes the verdict
        fixed at the start and ends the animation. */
    method Tick()
      requires Valid() && timerRunning
      modifies this`step, this`currentStep, this`timerRunning, this`result, this`isAnimating
      ensures Valid()
      ensures step == old(step) + 1 && currentStep == step
      ensures step < steps ==> timerRunning && isAnimating && result == old(result)
      ensures step == steps ==>
        && !timerRunning && !isAnimating
        && result == Some(if isPalindrome then Accept else Reject)
        && Displayed() == Shown(result.value)
    {
      step := step + 1;
      currentStep := step;
      if step >= steps {
        timerRunning := false;
        result := Some(if isPalindrome then Accept else Reject);
        isAnimating := false;
        FinalStateAgreesWithVerdict(input, currentStep);
      }
    }

    /** The interval firing until it clears itself: exactly 2L+1 ticks after
        `HandleCheck`, ending on step 2L+1, where the renderer shows the
        published verdict. */
    method RunAnimation() returns (ticks: nat)
      requires Valid() && timerRunning
      modifies this`step, this`currentStep, this`timerRunning, this`result, this`isAnimating
      ensures Valid() && !timerRunning && !isAnimating
      ensures ticks == old(steps) - old(step)
      ensures currentStep == 2 * |input| + 1
      ensures result == Some(VerdictFor(input))
      ensures Displayed() == Shown(VerdictFor(input))
    {
      ticks := 0;
      while timerRunning
        invariant Valid()
        invariant old(step) <= step <= steps
        invariant ticks == step - old(step)
        invariant steps == 2 * |input| + 1 && currentStep == step
        invariant !timerRunning ==> step == steps
        decreases steps - step
      {
        Tick();
        ticks := ticks + 1;
      }
      FinalStateAgreesWithVerdict(input, currentStep);
    }

    /** `handleReset`: back to the initial state. The button is disabled
        while animating. */
    method HandleReset()
      requires Valid() && !isAnimating
      modifies this`input, this`result, this`currentStep, this`isAnimating
      ensures Valid()
      ensures input == "" && result == None && currentStep == 0 && !isAnimating
    {
      input := "";
      result := None;
      currentStep := 0;
      isAnimating := false;
    }

    /** The passive effect, run after a render. It runs its body only when
        `input` or `isAnimating` differs from what it last saw; the body
        publishes the verdict when the input is non-empty and no animation
        runs. Afterwards the dependencies are seen, so running it twice is
        running it once. */
    method PassiveVerdict()
      requires Valid()
      modifies this`result, this`effectInput, this`effectAnimating
      ensures Valid() && DepsSeen()
      ensures !old(DepsSeen()) && input != "" && !isAnimating ==>
        result == Some(VerdictFor(input))
      ensures old(DepsSeen()) || input == "" || isAnimating ==> result == old(result)
    {
      if input != effectInput || isAnimating != effectAnimating {
        effectInput := input;
        effectAnimating := isAnimating;
        if input != "" && !isAnimating {
          result := Some(VerdictFor(input));
        }
      }
    }
  }

  /** A whole session on a fresh component, with the effect run after each
      render: type `raw`, press Check and let the interval run out. A
      sanitised value that is empty is stored but cannot be checked, and one
      that is too long is not stored; otherwise 2L+1 ticks occur and the
      published result and the final diagram state both give the verdict. */
  method TypeAndCheck(raw: string) returns (ticks: nat, shown: Nfa.State, result: Option<Verdict>)
    ensures var s := Sanitise(raw);
      if 0 < |s| <= MAX_LENGTH then
        ticks == 2 * |s| + 1 && result == Some(VerdictFor(s)) && shown == Shown(VerdictFor(s))
      else
        ticks == 0 && result == None && shown == Nfa.Q0
  {
    var c := new Controller();
    c.HandleInputChange(raw);
    c.PassiveVerdict();
    c.HandleCheck();
    c.PassiveVerdict();
    ticks := 0;
    if c.timerRunning {
      ticks := c.RunAnimation();
    }
    c.PassiveVerdict();
    shown := c.Displayed();
    result := c.result;
  }

  /** Typing "level", then a character the filter drops: the handler clears
      the result, but the stored input and the animating flag are the same
      as before, so the effect does not run and no result is shown. */
  method RetypeSameWord() returns (first: Option<Verdict>, second: Option<Verdict>)
    ensures first == Some(Accept)
    ensures second == None
  {
    var c := new Controller();
    LevelExample();
    c.HandleInputChange("level");
    c.PassiveVerdict();
    first := c.result;
    c.HandleInputChange("level1");
    c.PassiveVerdict();
    second := c.result;
  }

  /** "level" is kept as it is and is a palindrome; the trailing "1" of
      "level1" is dropped. */
  lemma LevelExample()
    ensures Sanitise("level") == "level" && Sanitise("level1") == "level"
    ensures VerdictFor("level") == Accept
  {
    assert IsLowerWord("level");
    assert "level1" == "level" + "1";
    SanitiseAppend("level", "1");
    SanitiseSingle('1');
  }

  /** Typing "Race1Car!" leaves "racecar" in the field. */
  lemma SanitiseExample()
    ensures Sanitise("Race1Car!") == "racecar"
  {
    LowerExample();
    FilterExample();
  }

  /** The lower-casing step of that example. */
  lemma LowerExample()
    ensures ToLower("Race1Car!") == "race1car!"
  {
  }

  /** The filter step of that example. */
  lemma FilterExample()
    ensures KeepLetters("race1car!") == "racecar"
  {
    assert KeepLetters("!") == "";
    assert KeepLetters("r!") == "r";
    assert KeepLetters("ar!") == "ar";
    assert KeepLetters("car!") == "car";
    assert KeepLetters("1car!") == "car";
    assert KeepLetters("e1car!") == "ecar";
    assert KeepLetters("ce1car!") == "cecar";
    assert KeepLetters("ace1car!") == "acecar";
    assert KeepLetters("race1car!") == "racecar";
  }

  /** The worked verdicts: "racecar" is accepted on step 15, "level" is
      accepted, "hello" is rejected on step 11, and "" is never a palindrome
      to the checker. */
  lemma VerdictExamples()
    ensures VerdictFor("racecar") == Accept && Nfa.CurrentState("racecar", 15) == Nfa.Accept
    ensures VerdictFor("level") == Accept
    ensures VerdictFor("hello") == Reject && Nfa.CurrentState("hello", 11) == Nfa.Reject
    ensures !CheckPalindrome("")
  {
    assert "hello"[1] != "hello"[3];
  }
}
