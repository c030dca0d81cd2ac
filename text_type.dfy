/** The typewriter banner: types a text one character per tick, then either
    deletes it and moves on to the next text (when looping), moves straight to
    the next text (when not looping), or stops. Timers are left out; one call
    of the animation step is one transition. */
module TextType {

  /** The `text` prop: one string or an array of strings. */
  datatype TextProp = One(text: string) | Many(texts: seq<string>)

  /** `Array.isArray(text) ? text : [text]` */
  function TextArray(p: TextProp): seq<string>
  {
    match p
    case One(t) => [t]
    case Many(ts) => ts
  }

  /** The component's five pieces of state. */
  datatype Typing = Typing(displayedText: string, charIndex: nat, isDeleting: bool, textIndex: nat, isComplete: bool)

  const Initial := Typing("", 0, false, 0, false)

  /** What the animation state always satisfies: the index names a text, and
      the banner shows a prefix of it — exactly the typed part while typing,
      and the part not yet deleted while deleting. (A banner that finishes
      after deleting keeps the end index with nothing shown.) */
  predicate Inv(s: Typing, texts: seq<string>) {
    && s.textIndex < |texts|
    && var cur := texts[s.textIndex];
    && s.charIndex <= |cur|
    && |s.displayedText| <= |cur| && s.displayedText == cur[..|s.displayedText|]
    && (!s.isDeleting && !s.isComplete ==> |s.displayedText| == s.charIndex)
    && (s.isDeleting ==> s.charIndex == |cur|)
  }

  /** One run of the animation step on state `s`. */
  function Next(s: Typing, texts: seq<string>, loop: bool): (t: Typing)
    requires Inv(s, texts)
    ensures Inv(t, texts)
    // a finished banner stays as it is
    ensures s.isComplete ==> t == s
    // with several texts and looping on, the banner never finishes
    ensures !s.isComplete && |texts| > 1 && loop ==> !t.isComplete
  {
    var cur := texts[s.textIndex];
    if s.isComplete then s
    else if s.isDeleting then
      if s.displayedText == "" then
        if s.textIndex == |texts| - 1 && !loop then s.(isDeleting := false, isComplete := true)
        else s.(isDeleting := false, textIndex := (s.textIndex + 1) % |texts|, charIndex := 0)
      else
        var d := s.displayedText[..|s.displayedText| - 1];
        assert d == cur[..|d|];
        s.(displayedText := d)
    else if s.charIndex < |cur| then
      assert s.displayedText + [cur[s.charIndex]] == cur[..s.charIndex + 1];
      s.(displayedText := s.displayedText + [cur[s.charIndex]], charIndex := s.charIndex + 1)
    else if |texts| > 1 && loop then s.(isDeleting := true)
    else if |texts| > 1 && !loop then
      if s.textIndex < |texts| - 1 then s.(textIndex := s.textIndex + 1, charIndex := 0, displayedText := "")
      else s.(isComplete := true)
    else s.(isComplete := true)
  }

  /** The state after `k` steps. */
  function Run(s: Typing, texts: seq<string>, loop: bool, k: nat): (t: Typing)
    requires Inv(s, texts)
    ensures Inv(t, texts)
    decreases k
  {
    if k == 0 then s else Run(Next(s, texts, loop), texts, loop, k - 1)
  }

  lemma {:induction false} RunSplit(s: Typing, texts: seq<string>, loop: bool, a: nat, b: nat)
    requires Inv(s, texts)
    ensures Run(s, texts, loop, a + b) == Run(Run(s, texts, loop, a), texts, loop, b)
    decreases a
  {
    if a > 0 {
      RunSplit(Next(s, texts, loop), texts, loop, a - 1, b);
    }
  }

  /** From `k` typed characters, the rest of the text is typed in as many steps. */
  lemma {:induction false} TypesOut(texts: seq<string>, loop: bool, i: nat, k: nat)
    requires i < |texts| && k <= |texts[i]|
    ensures var cur := texts[i];
            Inv(Typing(cur[..k], k, false, i, false), texts)
            && Run(Typing(cur[..k], k, false, i, false), texts, loop, |cur| - k) == Typing(cur, |cur|, false, i, false)
    decreases |texts[i]| - k
  {
    var cur := texts[i];
    if k < |cur| {
      assert cur[..k] + [cur[k]] == cur[..k + 1];
      TypesOut(texts, loop, i, k + 1);
    } else {
      assert cur[..k] == cur;
    }
  }

  /** Deleting a shown prefix of `k` characters takes `k` steps. */
  lemma {:induction false} DeletesOut(texts: seq<string>, loop: bool, i: nat, k: nat)
    requires i < |texts| && k <= |texts[i]|
    ensures var cur := texts[i];
            Inv(Typing(cur[..k], |cur|, true, i, false), texts)
            && Run(Typing(cur[..k], |cur|, true, i, false), texts, loop, k) == Typing("", |cur|, true, i, false)
  {
    var cur := texts[i];
    if k > 0 {
      assert cur[..k][..k - 1] == cur[..k - 1];
      DeletesOut(texts, loop, i, k - 1);
    }
  }

  /** A single text is typed out and then the banner finishes, showing it, for good. */
  lemma SingleTextCompletes(t: string, loop: bool, extra: nat)
    ensures Run(Initial, [t], loop, |t| + 1 + extra) == Typing(t, |t|, false, 0, true)
  {
    TypesOut([t], loop, 0, 0);
    RunSplit(Initial, [t], loop, |t|, 1 + extra);
    StaysComplete(Typing(t, |t|, false, 0, true), [t], loop, extra);
    assert Run(Typing(t, |t|, false, 0, false), [t], loop, 1 + extra)
        == Run(Typing(t, |t|, false, 0, true), [t], loop, extra);
  }

  lemma {:induction false} StaysComplete(s: Typing, texts: seq<string>, loop: bool, k: nat)
    requires Inv(s, texts) && s.isComplete
    ensures Run(s, texts, loop, k) == s
  {
    if k > 0 {
      StaysComplete(s, texts, loop, k - 1);
    }
  }

  /** With several texts and looping on, the banner never finishes. */
  lemma {:induction false} LoopNeverCompletes(texts: seq<string>, loop: bool, k: nat)
    requires |texts| > 1 && loop
    ensures !Run(Initial, texts, loop, k).isComplete
  {
    NotCompleteFrom(Initial, texts, loop, k);
  }

  lemma {:induction false} NotCompleteFrom(s: Typing, texts: seq<string>, loop: bool, k: nat)
    requires |texts| > 1 && loop && Inv(s, texts) && !s.isComplete
    ensures !Run(s, texts, loop, k).isComplete
    decreases k
  {
    if k > 0 {
      NotCompleteFrom(Next(s, texts, loop), texts, loop, k - 1);
    }
  }

  /** With looping on, each text is typed, paused on, deleted, and followed by
      the next one (the first after the last) in `2 * |text| + 2` steps. */
  lemma LoopCycle(texts: seq<string>, i: nat)
    requires |texts| > 1 && i < |texts|
    ensures var s := Typing("", 0, false, i, false);
            Inv(s, texts)
            && Run(s, texts, true, 2 * |texts[i]| + 2) == Typing("", 0, false, (i + 1) % |texts|, false)
  {
    var cur := texts[i];
    var s := Typing("", 0, false, i, false);
    TypesOut(texts, true, i, 0);
    assert cur[..0] == "" && cur[..|cur|] == cur;
    var typed := Typing(cur, |cur|, false, i, false);
    RunSplit(s, texts, true, |cur|, |cur| + 2);
    assert Run(typed, texts, true, |cur| + 2) == Run(Typing(cur, |cur|, true, i, false), texts, true, |cur| + 1);
    DeletesOut(texts, true, i, |cur|);
    RunSplit(Typing(cur, |cur|, true, i, false), texts, true, |cur|, 1);
  }

  /** Without looping, each text but the last is typed and then replaced by the
      next one in `|text| + 1` steps. */
  lemma NoLoopAdvance(texts: seq<string>, i: nat)
    requires |texts| > 1 && i < |texts| - 1
    ensures Run(Typing("", 0, false, i, false), texts, false, |texts[i]| + 1) == Typing("", 0, false, i + 1, false)
  {
    var cur := texts[i];
    TypesOut(texts, false, i, 0);
    assert cur[..0] == "" && cur[..|cur|] == cur;
    RunSplit(Typing("", 0, false, i, false), texts, false, |cur|, 1);
  }

  /** The number of steps a non-looping banner spends on texts `i` onwards. */
  function StepsFrom(texts: seq<string>, i: nat): nat
    requires i <= |texts|
    decreases |texts| - i
  {
    if i == |texts| then 0 else |texts[i]| + 1 + StepsFrom(texts, i + 1)
  }

  /** Without looping, the banner shows every text in turn and finishes on the
      last, which stays displayed. */
  lemma {:induction false} NoLoopCompletes(texts: seq<string>, i: nat)
    requires |texts| > 1 && i < |texts|
    ensures var last := texts[|texts| - 1];
            Inv(Typing("", 0, false, i, false), texts)
            && Run(Typing("", 0, false, i, false), texts, false, StepsFrom(texts, i))
               == Typing(last, |last|, false, |texts| - 1, true)
    decreases |texts| - i
  {
    var cur := texts[i];
    assert cur[..0] == "";
    if i == |texts| - 1 {
      TypesOut(texts, false, i, 0);
      assert cur[..|cur|] == cur;
      RunSplit(Typing("", 0, false, i, false), texts, false, |cur|, 1);
    } else {
      NoLoopAdvance(texts, i);
      RunSplit(Typing("", 0, false, i, false), texts, false, |cur| + 1, StepsFrom(texts, i + 1));
      NoLoopCompletes(texts, i + 1);
    }
  }

  /** The mounted banner. `texts` and `loop` are its props. */
  class TypeWriter {
    const texts: seq<string>
    const loop: bool
    var displayedText: string
    var charIndex: nat
    var isDeleting: bool
    var textIndex: nat
    var isComplete: bool

    function State(): Typing
      reads this
    {
      Typing(displayedText, charIndex, isDeleting, textIndex, isComplete)
    }

    predicate Valid()
      reads this
    {
      Inv(State(), texts)
    }

    /** The first render: nothing shown yet. An empty text array has no first
        text to type and is left out. */
    constructor (text: TextProp, loop: bool)
      requires |TextArray(text)| > 0
      ensures texts == TextArray(text) && this.loop == loop
      ensures State() == Initial && Valid()
    {
      texts := TextArray(text);
      this.loop := loop;
      displayedText, charIndex, isDeleting, textIndex, isComplete := "", 0, false, 0, false;
    }

    /** One run of `executeTypingAnimation`; `completed` says whether it called `onComplete`. */
    method Step() returns (completed: bool)
      requires Valid()
      modifies this
      ensures Valid()
      ensures State() == Next(old(State()), texts, loop)
      ensures completed <==> !old(isComplete) && isComplete
    {
      completed := false;
      if isComplete {
        return;
      }
      var currentText := texts[textIndex];
      if isDeleting {
        if displayedText == "" {
          isDeleting := false;
          if textIndex == |texts| - 1 && !loop {
            isComplete := true;
            completed := true;
            return;
          }
          textIndex := (textIndex + 1) % |texts|;
          charIndex := 0;
        } else {
          displayedText := displayedText[..|displayedText| - 1];
        }
      } else {
        if charIndex < |currentText| {
          displayedText := displayedText + [currentText[charIndex]];
          charIndex := charIndex + 1;
        } else if |texts| > 1 && loop {
          isDeleting := true;
        } else if |texts| > 1 && !loop {
          if textIndex < |texts| - 1 {
            textIndex := textIndex + 1;
            charIndex := 0;
            displayedText := "";
          } else {
            isComplete := true;
            completed := true;
          }
        } else {
          isComplete := true;
          completed := true;
        }
      }
    }
  }
}
