/**
 The typed-keys buffer behind the premium-palette unlock
 (src/hooks/useEasterEgg.ts:7-8, 16-66). Letter keys are appended in lower
 case; as soon as the buffer contains the keyword the premium palette is
 switched on and the buffer is reset; five seconds after each letter the
 buffer is cleared unless it contains the keyword. The keyword comes from the
 build environment and is a parameter here.
 */
module KeyBuffer {

  datatype EggState = EggState(typedKeys: string, premiumActive: bool)

  function Initial(): EggState {
    EggState("", false)
  }

  /** `/[a-zA-Z]/` on a single character. */
  predicate IsAsciiLetter(c: char) {
    ('a' <= c <= 'z') || ('A' <= c <= 'Z')
  }

  predicate IsLowerLetter(c: char) {
    'a' <= c <= 'z'
  }

  /** `toLowerCase()` on an ASCII letter. */
  function ToLower(c: char): (r: char)
    requires IsAsciiLetter(c)
    ensures IsLowerLetter(r)
    ensures 'a' <= c <= 'z' ==> r == c
    ensures 'A' <= c <= 'Z' ==> r as int - 'a' as int == c as int - 'A' as int
  {
    if 'A' <= c <= 'Z' then (c as int - 'A' as int + 'a' as int) as char else c
  }

  /** `s.includes(w)`, searched position by position: `w` is a prefix of `s`
      or of one of its suffixes. The empty word is contained in every string. */
  predicate Contains(s: string, w: string) {
    w <= s || (|s| > 0 && Contains(s[1..], w))
  }

  /** `w` occurs in `s` starting at position `i`. */
  ghost predicate OccursAt(s: string, w: string, i: int) {
    0 <= i && i + |w| <= |s| && s[i..i + |w|] == w
  }

  /** The search agrees with the definition of containment by position. */
  lemma {:induction false} ContainsIsOccurrence(s: string, w: string)
    ensures Contains(s, w) <==> exists i :: OccursAt(s, w, i)
  {
    if w <= s {
      assert s[0..|w|] == w;
      assert OccursAt(s, w, 0);
    } else if |s| == 0 {
      assert forall i :: !OccursAt(s, w, i);
    } else {
      ContainsIsOccurrence(s[1..], w);
      if exists i :: OccursAt(s[1..], w, i) {
        var i :| OccursAt(s[1..], w, i);
        assert s[i + 1..i + 1 + |w|] == s[1..][i..i + |w|];
        assert OccursAt(s, w, i + 1);
      }
      if exists i :: OccursAt(s, w, i) {
        var i :| OccursAt(s, w, i);
        if i > 0 {
          assert s[1..][i - 1..i - 1 + |w|] == s[i..i + |w|];
          assert OccursAt(s[1..], w, i - 1);
        }
      }
    }
  }

  /** `handleKeyPress`: a key that is not a single ASCII letter changes
      nothing; a letter is appended in lower case, and when the buffer then
      contains the keyword the palette is unlocked and the buffer reset. */
  function KeyPress(s: EggState, key: string, keyword: string): (r: EggState)
    ensures !(|key| == 1 && IsAsciiLetter(key[0])) ==> r == s
    ensures s.premiumActive ==> r.premiumActive
    ensures (forall i | 0 <= i < |s.typedKeys| :: IsLowerLetter(s.typedKeys[i])) ==>
      forall i | 0 <= i < |r.typedKeys| :: IsLowerLetter(r.typedKeys[i])
    ensures |key| == 1 && IsAsciiLetter(key[0]) ==>
      (r.typedKeys == "" && r.premiumActive <==> Contains(s.typedKeys + [ToLower(key[0])], keyword))
  {
    if |key| == 1 && IsAsciiLetter(key[0]) then
      var typed := s.typedKeys + [ToLower(key[0])];
      if Contains(typed, keyword) then EggState("", true)
      else EggState(typed, s.premiumActive)
    else s
  }

  /** The clear five seconds after a letter: the buffer is emptied unless it
      contains the keyword. */
  function DelayedClear(s: EggState, keyword: string): (r: EggState)
    ensures r.premiumActive == s.premiumActive
    ensures r.typedKeys == (if Contains(s.typedKeys, keyword) then s.typedKeys else "")
  {
    if !Contains(s.typedKeys, keyword) then s.(typedKeys := "") else s
  }

  /** Only a single ASCII letter changes the state; a letter that does not
      complete the keyword is appended in lower case. */
  lemma KeyPressEffect(s: EggState, key: string, keyword: string)
    ensures !(|key| == 1 && IsAsciiLetter(key[0])) ==> KeyPress(s, key, keyword) == s
    ensures |key| == 1 && IsAsciiLetter(key[0]) && !Contains(s.typedKeys + [ToLower(key[0])], keyword) ==>
      && KeyPress(s, key, keyword).typedKeys == s.typedKeys + [ToLower(key[0])]
      && IsLowerLetter(KeyPress(s, key, keyword).typedKeys[|s.typedKeys|])
      && KeyPress(s, key, keyword).premiumActive == s.premiumActive
    ensures |key| == 1 && IsAsciiLetter(key[0]) && Contains(s.typedKeys + [ToLower(key[0])], keyword) ==>
      KeyPress(s, key, keyword) == EggState("", true)
  {
  }

  /** An input to the hook: a key press, or one of the delayed clears. */
  datatype EggInput = Key(key: string) | Clear

  function Apply(s: EggState, i: EggInput, keyword: string): EggState {
    match i
    case Key(k) => KeyPress(s, k, keyword)
    case Clear => DelayedClear(s, keyword)
  }

  function ApplyAll(s: EggState, ins: seq<EggInput>, keyword: string): EggState
    decreases |ins|
  {
    if |ins| == 0 then s else ApplyAll(Apply(s, ins[0], keyword), ins[1..], keyword)
  }

  /** The hook never switches the palette off again. */
  lemma {:induction false} PremiumIsSticky(s: EggState, ins: seq<EggInput>, keyword: string)
    requires s.premiumActive
    ensures ApplyAll(s, ins, keyword).premiumActive
    decreases |ins|
  {
    if |ins| > 0 {
      PremiumIsSticky(Apply(s, ins[0], keyword), ins[1..], keyword);
    }
  }

  /** What the reachable buffers look like: lower-case letters only, and,
      for a non-empty keyword, never containing it (a match resets at once). */
  ghost predicate Reachable(s: EggState, keyword: string) {
    && (forall i | 0 <= i < |s.typedKeys| :: IsLowerLetter(s.typedKeys[i]))
    && (keyword != "" ==> !Contains(s.typedKeys, keyword))
  }

  lemma EmptyContainsNoWord(keyword: string)
    requires keyword != ""
    ensures !Contains("", keyword)
  {
  }

  lemma {:induction false} ReachableIsInvariant(s: EggState, ins: seq<EggInput>, keyword: string)
    requires Reachable(s, keyword)
    ensures Reachable(ApplyAll(s, ins, keyword), keyword)
    decreases |ins|
  {
    if |ins| > 0 {
      var s1 := Apply(s, ins[0], keyword);
      if keyword != "" {
        EmptyContainsNoWord(keyword);
      }
      assert Reachable(s1, keyword);
      ReachableIsInvariant(s1, ins[1..], keyword);
    }
  }

  /** For a non-empty keyword the delayed clear always empties the buffer in
      every reachable state: the "unless it contains the keyword" branch never
      fires, since a match has already reset the buffer. */
  lemma ClearAlwaysEmpties(ins: seq<EggInput>, keyword: string)
    requires keyword != ""
    ensures DelayedClear(ApplyAll(Initial(), ins, keyword), keyword).typedKeys == ""
  {
    ReachableIsInvariant(Initial(), ins, keyword);
  }

  /** Every character of a word found in a string of lower-case letters is a
      lower-case letter. */
  lemma ContainedWordIsLower(s: string, w: string)
    requires forall i | 0 <= i < |s| :: IsLowerLetter(s[i])
    requires Contains(s, w)
    ensures forall j | 0 <= j < |w| :: IsLowerLetter(w[j])
  {
    ContainsIsOccurrence(s, w);
    var i :| OccursAt(s, w, i);
    forall j | 0 <= j < |w|
      ensures IsLowerLetter(w[j])
    {
      assert w[j] == s[i + j];
    }
  }

  /** A keyword holding anything other than a lower-case ASCII letter can
      never be typed: since the buffer only ever receives lower-case letters,
      the palette stays locked whatever keys are pressed. */
  lemma {:induction false} UntypeableKeywordNeverUnlocks(s: EggState, ins: seq<EggInput>, keyword: string, j: int)
    requires 0 <= j < |keyword| && !IsLowerLetter(keyword[j])
    requires Reachable(s, keyword) && !s.premiumActive
    ensures !ApplyAll(s, ins, keyword).premiumActive
    decreases |ins|
  {
    if |ins| > 0 {
      var s1 := Apply(s, ins[0], keyword);
      if ins[0].Key? {
        var k := ins[0].key;
        if |k| == 1 && IsAsciiLetter(k[0]) {
          var typed := s.typedKeys + [ToLower(k[0])];
          if Contains(typed, keyword) {
            ContainedWordIsLower(typed, keyword);
          }
        }
      }
      ReachableIsInvariant(s, [ins[0]], keyword);
      assert ApplyAll(s, [ins[0]], keyword) == s1;
      UntypeableKeywordNeverUnlocks(s1, ins[1..], keyword, j);
    }
  }

  /** Typing the keyword, letter by letter in lower case, from the initial
      state unlocks the palette and leaves the buffer empty. */
  lemma TypingTheKeywordUnlocks(keyword: string)
    requires keyword != ""
    requires forall j | 0 <= j < |keyword| :: IsLowerLetter(keyword[j])
    ensures ApplyAll(Initial(), KeysOf(keyword), keyword) == EggState("", true)
  {
    TypingPrefix(keyword, |keyword|);
    assert keyword[..|keyword|] == keyword;
  }

  /** The key presses that type `w`. */
  function KeysOf(w: string): (r: seq<EggInput>)
    ensures |r| == |w|
    ensures forall i | 0 <= i < |w| :: r[i] == Key([w[i]])
  {
    seq(|w|, i requires 0 <= i < |w| => Key([w[i]]))
  }

  /** Typing the first `n` letters of a lower-case keyword from the initial
      state leaves exactly those letters in the buffer, until the last one
      completes the keyword. */
  lemma {:induction false} TypingPrefix(keyword: string, n: nat)
    requires keyword != "" && n <= |keyword|
    requires forall j | 0 <= j < |keyword| :: IsLowerLetter(keyword[j])
    ensures ApplyAll(Initial(), KeysOf(keyword[..n]), keyword)
         == if n < |keyword| then EggState(keyword[..n], false) else EggState("", true)
  {
    if n == 0 {
      assert KeysOf(keyword[..0]) == [];
    } else {
      TypingPrefix(keyword, n - 1);
      var prev := ApplyAll(Initial(), KeysOf(keyword[..n - 1]), keyword);
      ApplyAllSnoc(Initial(), KeysOf(keyword[..n - 1]), Key([keyword[n - 1]]), keyword);
      assert KeysOf(keyword[..n]) == KeysOf(keyword[..n - 1]) + [Key([keyword[n - 1]])];
      assert ToLower(keyword[n - 1]) == keyword[n - 1];
      assert keyword[..n - 1] + [keyword[n - 1]] == keyword[..n];
      if n < |keyword| {
        ShortPrefixLacksWord(keyword[..n], keyword);
      } else {
        assert keyword[..n] == keyword;
        assert keyword <= keyword[..n];
      }
    }
  }

  /** A string shorter than a word does not contain it. */
  lemma ShortPrefixLacksWord(s: string, w: string)
    requires |s| < |w|
    ensures !Contains(s, w)
  {
    ContainsIsOccurrence(s, w);
  }

  /** Applying one more input after a sequence. */
  lemma {:induction false} ApplyAllSnoc(s: EggState, ins: seq<EggInput>, i: EggInput, keyword: string)
    ensures ApplyAll(s, ins + [i], keyword) == Apply(ApplyAll(s, ins, keyword), i, keyword)
    decreases |ins|
  {
    if |ins| > 0 {
      assert (ins + [i])[1..] == ins[1..] + [i];
      ApplyAllSnoc(Apply(s, ins[0], keyword), ins[1..], i, keyword);
    }
  }
}
