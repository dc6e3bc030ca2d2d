# Palindrome automaton visualiser — Dafny model

The application animates a "push, then pop and compare" automaton deciding
whether a short lower-case word is a palindrome. Two pieces of it carry
logic, and both are modelled here:

- **The step renderer** (`NFAVisualization`, module `Nfa` in
  `nfa_visualization.dfy`). It is a pure function of the input, the step
  counter and the animating flag. From these it derives the diagram state
  (`q0`, `q1` push, `q2` pop and compare, `accept`, `reject`). It also
  derives which character cell is highlighted, and the "conceptual stack".
  In `q1` the stack is a prefix slice. In `q2` it is a
  reverse / drop / reverse chain of slices.
- **The controller** (`PalindromeChecker`, module `Checker` in
  `palindrome_checker.dfy`). It sanitises typed text to at most 7 letters
  `a`-`z` and decides palindromes. It is a class, `Checker.Controller`,
  holding the component's four state variables: `input`, `result`,
  `currentStep` and `isAnimating`. The same class also holds the state that
  the running interval callback captures: whether the interval is scheduled,
  the counter `step`, the bound `steps` and the precomputed `isPalindrome`.
  Each handler is a method. One firing of the interval is `Tick`.
  `RunAnimation` fires the interval until it clears itself. The passive
  verdict effect is `PassiveVerdict`.

`seqs.dfy` (module `Seqs`) holds the JavaScript array operations both files
use: `reverse` of a copy, and `slice` with one argument, including negative
starts.

Properties proved include:
- the state is `q0` exactly at step 0, `q1` on steps 1..L, `q2` on steps
  L+1..2L, and afterwards `accept` exactly when the input reads the same in
  both directions;
- the state never moves backwards, and it is constant after step 2L;
- `midpoint` is the ceiling of L/2;
- the highlighted index rises through the push phase and falls through the
  pop phase;
- the q2 reverse/slice/reverse chain equals the prefix of the input of
  length `max(0, midpoint - (step - L))`;
- after exactly 2L+1 ticks the controller publishes a result that agrees
  with the state the renderer shows.

The stack drawn in `q2` is already empty from step L + midpoint on. So for
every input of length 1 or more, the last `L - midpoint + 1` steps of the
pop-and-compare phase (steps L + midpoint to 2L) show an empty stack
(`PopStackShrinks`).

Behaviour of the code that the model keeps:
- The last tick leaves the step counter at 2L+1, not 2L
  (PalindromeChecker.tsx, lines 32-37). This is what puts the renderer into
  accept/reject.
- The handlers have no animating guard. Instead, the text field, the Check
  button and the Reset button are disabled while animating (lines 102, 106
  and 114). The model turns each of these into the precondition
  `!isAnimating` on `HandleInputChange`, `HandleCheck` and `HandleReset`.
- The step is reset to 0 only when the sanitised value is stored, which
  needs a length of at most 7.
- The passive effect depends on `[input, isAnimating]` (line 67), so React
  runs it only when one of them has changed since its last run. The
  controller keeps the dependencies the effect last saw. Suppose "level" is
  shown as accepted and the user types a character that the filter drops.
  The handler stores the same "level" and clears the result. No dependency
  changed, so the effect does not run, and no result is shown
  (`RetypeSameWord`).

## Model

| member | source | states |
|---|---|---|
| `Seqs.Reverse` | src/components/NFAVisualization.tsx:29 | `split("").reverse().join("")` and `.reverse()` keep the length, and element i of the result is element L-1-i of the input |
| `Seqs.ReverseInvolutive` | src/components/NFAVisualization.tsx:169-173 | reversing twice gives back the original array |
| `Seqs.SliceFrom` | src/components/NFAVisualization.tsx:172 | one-argument `slice`: a non-negative start drops that many leading elements (nothing is left past the end); a negative start keeps that many trailing elements |
| `Seqs.ReverseDropReverse` | src/components/NFAVisualization.tsx:171-173 | reverse, drop k, reverse again = drop the last k elements |
| `Nfa.Midpoint` | src/components/NFAVisualization.tsx:20 | `Math.ceil(L/2)`: m <= L and L <= 2m <= L+1, which characterises the ceiling |
| `Nfa.IsPalindrome` | src/components/NFAVisualization.tsx:29 | `input === reversed input` holds iff every character equals its mirror character |
| `Nfa.CurrentState` | src/components/NFAVisualization.tsx:23-31 | q0 iff step = 0; q1 iff 1 <= step <= L; q2 iff L < step <= 2L; accept iff step > 2L and the input is mirror-symmetric; reject iff step > 2L and some character differs from its mirror |
| `Nfa.StateMonotone` | src/components/NFAVisualization.tsx:23-31 | as the step grows the state never goes back (q0, q1, q2, then final), and it is the same for all steps past 2L |
| `Nfa.EmptyInputAccepts` | src/components/NFAVisualization.tsx:24-30 | with the empty input every step > 0 shows accept |
| `Nfa.ProcessingIndex` | src/components/NFAVisualization.tsx:36-38 | for 1 <= step <= 2L the highlighted index is a valid character index; at step 0 and past 2L it is negative |
| `Nfa.ProcessingIndexSweep` | src/components/NFAVisualization.tsx:36-38 | the index rises by 1 per push step from 0 and repeats L-1 at the turn (steps L and L+1); it then falls by 1 per pop step down to 0 at step 2L |
| `Nfa.HighlightedCells` | src/components/NFAVisualization.tsx:139-147 | while animating on steps 1..2L exactly one cell is highlighted, the one at the processing index; when not animating, at step 0 or past 2L none is |
| `Nfa.PushStack` | src/components/NFAVisualization.tsx:159-160 | the q1 stack is the prefix of the input of length min(step, midpoint), never longer than midpoint |
| `Nfa.PushStackGrows` | src/components/NFAVisualization.tsx:159-160 | the q1 stack at a later step extends the one at an earlier step |
| `Nfa.PopStack` | src/components/NFAVisualization.tsx:168-173 | the q2 chain never holds more than midpoint entries, and after step - L pops it holds max(0, midpoint - (step - L)) of them (its contents: `Nfa.PopStackIsPrefix`) |
| `Nfa.PopStackIsPrefix` | src/components/NFAVisualization.tsx:168-173 | the q2 chain `slice(0, midpoint).reverse().slice(step - L).reverse()` equals the prefix of the input of length max(0, midpoint - (step - L)) |
| `Nfa.PopStackShrinks` | src/components/NFAVisualization.tsx:168-173 | each further step pops exactly the top entry; the stack is empty from step L + midpoint on |
| `Nfa.StackView` | src/components/NFAVisualization.tsx:158-182 | the drawn stack is always a prefix of the input of at most midpoint characters, and it is empty outside q1 and q2 |
| `Nfa.StackViewByPhase` | src/components/NFAVisualization.tsx:159-173 | the exact stack in each phase: prefix of length min(step, midpoint) in q1, of length max(0, midpoint - (step - L)) in q2, and empty in q0, accept and reject |
| `Checker.LowerAscii` | src/components/PalindromeChecker.tsx:54 | an upper-case letter becomes the lower-case letter at the same place in the alphabet; every other character is unchanged; the result is never upper-case, and it is a letter a-z exactly when the input was a letter of either case |
| `Checker.ToLower` | src/components/PalindromeChecker.tsx:54 | `toLowerCase` keeps the length and lower-cases each character in place |
| `Checker.KeepLetters` | src/components/PalindromeChecker.tsx:54 | `replace(/[^a-z]/g, "")` yields only letters a-z and is never longer than its input |
| `Checker.KeepLettersSingle` | src/components/PalindromeChecker.tsx:54 | one character is kept iff it is a letter a-z |
| `Checker.KeepLettersAppend` | src/components/PalindromeChecker.tsx:54 | filtering a concatenation is concatenating the filtered parts, so with `KeepLettersSingle` the result is the input's letters a-z in their original order and nothing else |
| `Checker.KeepLettersCounts` | src/components/PalindromeChecker.tsx:54 | the filter keeps every occurrence of each letter a-z |
| `Checker.KeepLettersOnClean` | src/components/PalindromeChecker.tsx:54 | text made only of a-z passes the filter unchanged |
| `Checker.Sanitise` | src/components/PalindromeChecker.tsx:54 | the stored value contains only a-z and is no longer than the raw text; clean text is kept as it is, so sanitising is idempotent |
| `Checker.CleanPassesThrough` | src/components/PalindromeChecker.tsx:54 | lower-casing and then filtering text made only of a-z gives it back unchanged |
| `Checker.SanitiseSingle` | src/components/PalindromeChecker.tsx:54 | one raw character gives its lower-case form if it is a letter of either case, and nothing otherwise |
| `Checker.SanitiseAppend` | src/components/PalindromeChecker.tsx:54 | sanitising a concatenation is concatenating the sanitised parts; with `SanitiseSingle` this fixes the result for every raw text |
| `Checker.CheckPalindrome` | src/components/PalindromeChecker.tsx:18-21 | true iff 0 < length <= 7 and every character equals its mirror character (so false for "" and for anything longer than 7) |
| `Checker.VerdictFor` | src/components/PalindromeChecker.tsx:40 | the published tag (`isPalindrome ? "accept" : "reject"`) is accept iff 0 < length <= 7 and every character equals its mirror character |
| `Checker.FinalStateAgreesWithVerdict` | src/components/PalindromeChecker.tsx:29-40 | for 1 <= L <= 7 and every step past 2L, the renderer's accept/reject state is the one matching the controller's verdict |
| `Checker.Controller.constructor` | src/components/PalindromeChecker.tsx:13-16 | initial state: empty input, no result, step 0, not animating, no interval; the effect has already seen these dependencies |
| `Checker.Controller.HandleInputChange` | src/components/PalindromeChecker.tsx:53-60 | a sanitised value of length <= 7 is stored, with result cleared and step 0; a longer one changes nothing; the input invariant (only a-z, at most 7) is kept |
| `Checker.Controller.HandleCheck` | src/components/PalindromeChecker.tsx:23-33 | on empty input nothing changes; otherwise animating, step 0, the verdict fixed as `checkPalindrome(input)`, and an interval armed for 2L+1 ticks |
| `Checker.Controller.Tick` | src/components/PalindromeChecker.tsx:34-43 | the counter rises by exactly 1 and is shown; on reaching 2L+1 the interval is cleared, the fixed verdict is published, animation ends, and the renderer shows the matching final state |
| `Checker.Controller.RunAnimation` | src/components/PalindromeChecker.tsx:32-43 | the interval fires exactly `steps - step` more times (2L+1 after a start), ending on step 2L+1 with the verdict published and shown by the renderer |
| `Checker.Controller.HandleReset` | src/components/PalindromeChecker.tsx:46-51 | restores input "", result none, step 0, not animating |
| `Checker.Controller.PassiveVerdict` | src/components/PalindromeChecker.tsx:62-67 | if `input` or `isAnimating` changed since the effect last ran, and the input is non-empty and no animation runs, the verdict of the input is published; in every other case the result is unchanged; afterwards the dependencies count as seen, so running it twice equals running it once |
| `Checker.TypeAndCheck` | src/components/PalindromeChecker.tsx:23-67 | a whole session from the initial state: typed text whose sanitised form has 1..7 letters gets exactly 2L+1 ticks, and then a published result and a final diagram state that both give its verdict; text that sanitises to nothing is stored as "" and cannot be checked, and text that sanitises to more than 7 letters is not stored; in both cases nothing is checked, no tick occurs and no result is shown |
| `Checker.RetypeSameWord` | src/components/PalindromeChecker.tsx:53-67 | after "level" the result is accept; typing a dropped character ("level1") clears it, and the effect, whose dependencies did not change, leaves it cleared |
| `Checker.LevelExample` | src/components/PalindromeChecker.tsx:54 | "level" is kept as it is, "level1" sanitises to "level", and "level" is accepted |
| `Checker.SanitiseExample` | src/components/PalindromeChecker.tsx:54 | typing "Race1Car!" stores "racecar" |
| `Checker.LowerExample` | src/components/PalindromeChecker.tsx:54 | "Race1Car!" lower-cases to "race1car!" |
| `Checker.FilterExample` | src/components/PalindromeChecker.tsx:54 | "race1car!" filters to "racecar" |
| `Checker.VerdictExamples` | src/components/PalindromeChecker.tsx:18-21 | "racecar" and "level" are accepted and "hello" rejected; "racecar" shows accept at step 15 and "hello" shows reject at step 11; "" is never a palindrome to the checker |

## Left out

- JSX, styling, icons and the UI kit components: presentation only. Which diagram node, badge and text is lit is read off `Nfa.CurrentState`, and which cells are highlighted is `Nfa.HighlightedCells`.
- Real time: the 500 ms `setInterval`/`clearInterval`, React's batching of state updates and the order in which re-renders and effects are scheduled. A tick is the explicit call `Tick`, and the effect is the explicit call `PassiveVerdict`.
- Overlapping intervals: these cannot occur, because the Check button is disabled while animating (the `!isAnimating` precondition).
- The browser event object: `HandleInputChange` takes the raw field value as a string.
- Unicode case mapping: `Checker.LowerAscii` maps only `A`-`Z` to `a`-`z`. A non-ASCII character that `toLowerCase` would turn into an ASCII letter, such as the Kelvin sign, is dropped by the model rather than kept.
- Non-integer and negative step values: the step is a `nat`, because the controller only ever stores 0..2L+1.
- The visualisation panel is rendered only for non-empty input (PalindromeChecker.tsx:153). The model derives the renderer's values for every input, including "".
