/**
 * The typewriter placeholder of the search box: it types the current prompt one
 * character at a time, pauses, erases it one character at a time, and moves on
 * to the next prompt, cyclically. Timer delays are left out; each `Step` is one
 * timer firing.
 */
module Typewriter {

  /** The hook's three state variables. */
  datatype State = State(placeholder: string, promptIndex: nat, isErasing: bool)

  const Initial: State := State("", 0, false)

  /** `prompts[promptIndex] || ""`: the empty string when there is no such prompt. */
  function CurrentPrompt(prompts: seq<string>, i: nat): string
  {
    if i < |prompts| then prompts[i] else ""
  }

  /** `s.slice(0, k)` for `k >= 0`. */
  function Slice(s: string, k: nat): string
  {
    if k <= |s| then s[..k] else s
  }

  /** The index after `i`, wrapping at the end. With no prompts the source computes NaN here; the index then stays. */
  function NextPromptIndex(prompts: seq<string>, i: nat): nat
  {
    if |prompts| == 0 then i else (i + 1) % |prompts|
  }

  /** One timer firing: the four rules of the effect, and no change when none applies. */
  function Next(prompts: seq<string>, s: State): State
  {
    var p := CurrentPrompt(prompts, s.promptIndex);
    var n := |s.placeholder|;
    if !s.isErasing && n < |p| then s.(placeholder := Slice(p, n + 1))
    else if !s.isErasing && n == |p| then s.(isErasing := true)
    else if s.isErasing && n > 0 then s.(placeholder := Slice(p, n - 1))
    else if s.isErasing && n == 0 then State(s.placeholder, NextPromptIndex(prompts, s.promptIndex), false)
    else s
  }

  /** The placeholder is a prefix of the current prompt, and the index names a prompt when there is one. */
  ghost predicate Invariant(prompts: seq<string>, s: State)
  {
    && s.placeholder <= CurrentPrompt(prompts, s.promptIndex)
    && (|prompts| == 0 || s.promptIndex < |prompts|)
  }

  lemma InitialInvariant(prompts: seq<string>)
    ensures Invariant(prompts, Initial)
  {
  }

  /** Every step keeps the invariant. */
  lemma NextKeepsInvariant(prompts: seq<string>, s: State)
    requires Invariant(prompts, s)
    ensures Invariant(prompts, Next(prompts, s))
  {
  }

  /**
   * The four rules, in terms of the text shown: typing adds the next character of
   * the prompt, a fully typed prompt switches to erasing, erasing drops the last
   * character, and an erased prompt advances the index and stops erasing.
   */
  lemma StepRules(prompts: seq<string>, s: State)
    requires Invariant(prompts, s)
    ensures var p := CurrentPrompt(prompts, s.promptIndex);
      var t := Next(prompts, s);
      && (!s.isErasing && |s.placeholder| < |p| ==>
            t == s.(placeholder := s.placeholder + [p[|s.placeholder|]]))
      && (!s.isErasing && s.placeholder == p ==> t == s.(isErasing := true))
      && (s.isErasing && s.placeholder != "" ==>
            t == s.(placeholder := s.placeholder[..|s.placeholder| - 1]))
      && (s.isErasing && s.placeholder == "" ==>
            && t.placeholder == "" && !t.isErasing
            && (|prompts| > 0 ==> t.promptIndex == (s.promptIndex + 1) % |prompts| && t.promptIndex < |prompts|))
  {
    var p := CurrentPrompt(prompts, s.promptIndex);
    var n := |s.placeholder|;
    if !s.isErasing && n < |p| {
      assert p[..n + 1] == p[..n] + [p[n]];
    }
    if s.isErasing && n > 0 {
      assert p[..n - 1] == s.placeholder[..n - 1];
    }
  }

  /** `k` timer firings. */
  function Run(prompts: seq<string>, s: State, k: nat): State
    decreases k
  {
    if k == 0 then s else Run(prompts, Next(prompts, s), k - 1)
  }

  lemma {:induction false} RunAdd(prompts: seq<string>, s: State, a: nat, b: nat)
    ensures Run(prompts, s, a + b) == Run(prompts, Run(prompts, s, a), b)
    decreases a
  {
    if a > 0 {
      RunAdd(prompts, Next(prompts, s), a - 1, b);
    }
  }

  /** While typing, `k` firings type `k` more characters. */
  lemma {:induction false} Typing(prompts: seq<string>, i: nat, j: nat, k: nat)
    requires j + k <= |CurrentPrompt(prompts, i)|
    ensures var p := CurrentPrompt(prompts, i);
      Run(prompts, State(p[..j], i, false), k) == State(p[..j + k], i, false)
    decreases k
  {
    if k > 0 {
      Typing(prompts, i, j + 1, k - 1);
    }
  }

  /** While erasing, `k` firings erase `k` characters. */
  lemma {:induction false} Erasing(prompts: seq<string>, i: nat, j: nat, k: nat)
    requires k <= j <= |CurrentPrompt(prompts, i)|
    ensures var p := CurrentPrompt(prompts, i);
      Run(prompts, State(p[..j], i, true), k) == State(p[..j - k], i, true)
    decreases k
  {
    if k > 0 {
      Erasing(prompts, i, j - 1, k - 1);
    }
  }

  /**
   * From an empty, typing state on prompt `i`, one full cycle of 2 * |p| + 2
   * firings (type, pause, erase, advance) leads to the same state on the next prompt.
   */
  lemma Cycle(prompts: seq<string>, i: nat)
    requires i < |prompts|
    ensures Run(prompts, State("", i, false), 2 * |prompts[i]| + 2) == State("", (i + 1) % |prompts|, false)
  {
    var p := prompts[i];
    var n := |p|;
    assert p[..0] == "" && p[..n] == p;
    Typing(prompts, i, 0, n);
    RunAdd(prompts, State("", i, false), n, 1);
    assert Run(prompts, State(p, i, false), 1) == State(p, i, true);
    RunAdd(prompts, State("", i, false), n + 1, n);
    Erasing(prompts, i, n, n);
    RunAdd(prompts, State("", i, false), 2 * n + 1, 1);
  }

  /** The state of one mounted hook. */
  class TypewriterEffect {
    const prompts: seq<string>
    var placeholder: string
    var promptIndex: nat
    var isErasing: bool

    function Current(): State
      reads this
    {
      State(placeholder, promptIndex, isErasing)
    }

    ghost predicate Valid()
      reads this
    {
      Invariant(prompts, Current())
    }

    constructor (prompts: seq<string>)
      ensures Valid()
      ensures this.prompts == prompts && Current() == Initial
    {
      this.prompts := prompts;
      placeholder, promptIndex, isErasing := "", 0, false;
    }

    /** One timer firing of the effect. */
    method Step()
      requires Valid()
      modifies this
      ensures Valid()
      ensures Current() == Next(prompts, old(Current()))
    {
      NextKeepsInvariant(prompts, Current());
      var currentPrompt := CurrentPrompt(prompts, promptIndex);
      if !isErasing && |placeholder| < |currentPrompt| {
        placeholder := Slice(currentPrompt, |placeholder| + 1);
      } else if !isErasing && |placeholder| == |currentPrompt| {
        isErasing := true;
      } else if isErasing && |placeholder| > 0 {
        placeholder := Slice(currentPrompt, |placeholder| - 1);
      } else if isErasing && |placeholder| == 0 {
        isErasing := false;
        promptIndex := NextPromptIndex(prompts, promptIndex);
      }
    }

    /** The hook's result: the text shown, always a prefix of the current prompt. */
    method Placeholder() returns (text: string)
      requires Valid()
      ensures text == placeholder
      ensures text <= CurrentPrompt(prompts, promptIndex)
    {
      text := placeholder;
    }
  }
}
