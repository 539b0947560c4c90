/** The typing effect of js/main.js: the callbacks type and erase, which
    reschedule each other through setTimeout, write the words of the text
    array into a span one character at a time and take them out again. The
    timer queue is not modelled; each callback returns the timer it sets. */
module Typing {
  /** textArray. */
  const Words: seq<string> :=
    ["Java Developer", "Spring Boot Specialist", "Backend Engineer", "Problem Solver"]

  /** setTimeout delays in milliseconds. */
  const StartDelay: nat := 2000
  const TypeDelay: nat := 100
  const HoldDelay: nat := 2000
  const EraseDelay: nat := 50
  const NextWordDelay: nat := 600

  datatype Callback = Type | Erase

  /** The one timer the effect has pending: which callback, after how long. */
  datatype Timer = Timer(callback: Callback, delay: nat)

  /** textArrayIndex, charIndex and the span's textContent. */
  datatype Typed = Typed(wordIndex: nat, chars: nat, text: string)

  /** The indices stay in range: a word of the array, and at most its length. */
  predicate InRange(words: seq<string>, t: Typed) {
    t.wordIndex < |words| && t.chars <= |words[t.wordIndex]|
  }

  /** The span shows exactly the first chars characters of the current word. */
  predicate Shows(words: seq<string>, t: Typed)
    requires InRange(words, t)
  {
    t.text == words[t.wordIndex][..t.chars]
  }

  /** type: while the word is incomplete append its next character and come
      back in 100 ms; once complete, erase after 2000 ms. */
  function TypeStep(words: seq<string>, t: Typed): (r: (Typed, Timer))
    requires InRange(words, t)
    ensures InRange(words, r.0) && r.0.wordIndex == t.wordIndex
    ensures t.chars < |words[t.wordIndex]| ==>
      r.0.chars == t.chars + 1 && r.1 == Timer(Type, TypeDelay)
    ensures t.chars == |words[t.wordIndex]| ==> r.0 == t && r.1 == Timer(Erase, HoldDelay)
  {
    var w := words[t.wordIndex];
    if t.chars < |w| then
      (Typed(t.wordIndex, t.chars + 1, t.text + [w[t.chars]]), Timer(Type, TypeDelay))
    else
      (t, Timer(Erase, HoldDelay))
  }

  /** erase: while characters remain, show one fewer and come back in 50 ms;
      at zero, move to the next word (wrapping after the last) and type it
      after 600 ms. */
  function EraseStep(words: seq<string>, t: Typed): (r: (Typed, Timer))
    requires InRange(words, t)
    ensures InRange(words, r.0)
    ensures t.chars > 0 ==>
      r.0.wordIndex == t.wordIndex && r.0.chars == t.chars - 1 && Shows(words, r.0)
      && r.1 == Timer(Erase, EraseDelay)
    ensures t.chars == 0 ==>
      r.0 == Typed((t.wordIndex + 1) % |words|, 0, t.text) && r.1 == Timer(Type, NextWordDelay)
  {
    var w := words[t.wordIndex];
    if t.chars > 0 then
      (Typed(t.wordIndex, t.chars - 1, w[..t.chars - 1]), Timer(Erase, EraseDelay))
    else
      (Typed((t.wordIndex + 1) % |words|, 0, t.text), Timer(Type, NextWordDelay))
  }

  /** The callback a timer runs. */
  function Fire(words: seq<string>, t: Typed, c: Callback): (r: (Typed, Timer))
    requires InRange(words, t)
    ensures InRange(words, r.0)
  {
    match c
    case Type => TypeStep(words, t)
    case Erase => EraseStep(words, t)
  }

  /** The state and the pending timer after n timers have fired. */
  function Run(words: seq<string>, t: Typed, pending: Timer, n: nat): (r: (Typed, Timer))
    requires InRange(words, t)
    ensures InRange(words, r.0)
    decreases n
  {
    if n == 0 then (t, pending)
    else
      var next := Fire(words, t, pending.callback);
      Run(words, next.0, next.1, n - 1)
  }

  /** The state when the page loads, with type due in 2000 ms. The span's
      initial text is taken to be empty. */
  const Initial: Typed := Typed(0, 0, "")


  /** Each callback keeps the span showing a prefix of the current word. */
  lemma StepsKeepShowing(words: seq<string>, t: Typed, c: Callback)
    requires InRange(words, t) && Shows(words, t)
    ensures Shows(words, Fire(words, t, c).0)
  {
    var w := words[t.wordIndex];
    if c == Type && t.chars < |w| {
      assert w[..t.chars + 1] == w[..t.chars] + [w[t.chars]];
    }
  }

  /** The span shows a prefix of the current word at every point of any run
      that starts showing one. */
  lemma {:induction false} RunKeepsShowing(words: seq<string>, t: Typed, pending: Timer, n: nat)
    requires InRange(words, t) && Shows(words, t)
    ensures Shows(words, Run(words, t, pending, n).0)
    decreases n
  {
    if n > 0 {
      StepsKeepShowing(words, t, pending.callback);
      var next := Fire(words, t, pending.callback);
      RunKeepsShowing(words, next.0, next.1, n - 1);
    }
  }

  /** n timers and then m more are n + m timers. */
  lemma {:induction false} RunAppend(words: seq<string>, t: Typed, pending: Timer, n: nat, m: nat)
    requires InRange(words, t)
    ensures Run(words, t, pending, n + m)
         == Run(words, Run(words, t, pending, n).0, Run(words, t, pending, n).1, m)
    decreases n
  {
    if n > 0 {
      var next := Fire(words, t, pending.callback);
      RunAppend(words, next.0, next.1, n - 1, m);
    }
  }

  /** Typing word i from c characters: |w| - c type calls complete it. */
  lemma {:induction false} TypeRun(words: seq<string>, i: nat, c: nat, d: nat)
    requires i < |words| && c <= |words[i]|
    ensures Run(words, Typed(i, c, words[i][..c]), Timer(Type, d), |words[i]| - c)
         == (Typed(i, |words[i]|, words[i]), Timer(Type, if c == |words[i]| then d else TypeDelay))
    decreases |words[i]| - c
  {
    var w := words[i];
    if c < |w| {
      assert w[..c] + [w[c]] == w[..c + 1];
      TypeRun(words, i, c + 1, TypeDelay);
    } else {
      assert w[..c] == w;
    }
  }

  /** Erasing word i from c characters: c erase calls empty the span. */
  lemma {:induction false} EraseRun(words: seq<string>, i: nat, c: nat, d: nat)
    requires i < |words| && c <= |words[i]|
    ensures Run(words, Typed(i, c, words[i][..c]), Timer(Erase, d), c)
         == (Typed(i, 0, ""), Timer(Erase, if c == 0 then d else EraseDelay))
    decreases c
  {
    if c > 0 {
      EraseRun(words, i, c - 1, EraseDelay);
    }
  }

  /** Type word i in full, then the hold: the span shows the word and erase
      is due in 2000 ms. */
  lemma TypeAndHold(words: seq<string>, i: nat, d: nat)
    requires i < |words|
    ensures Run(words, Typed(i, 0, ""), Timer(Type, d), |words[i]| + 1)
         == (Typed(i, |words[i]|, words[i]), Timer(Erase, HoldDelay))
  {
    var w := words[i];
    assert w[..0] == "";
    TypeRun(words, i, 0, d);
    RunAppend(words, Typed(i, 0, ""), Timer(Type, d), |w|, 1);
  }

  /** Erase word i in full, then move on: the span is empty and the next word
      is due in 600 ms. */
  lemma EraseAndAdvance(words: seq<string>, i: nat)
    requires i < |words|
    ensures Run(words, Typed(i, |words[i]|, words[i]), Timer(Erase, HoldDelay), |words[i]| + 1)
         == (Typed((i + 1) % |words|, 0, ""), Timer(Type, NextWordDelay))
  {
    var w := words[i];
    assert w[..|w|] == w;
    EraseRun(words, i, |w|, HoldDelay);
    RunAppend(words, Typed(i, |w|, w), Timer(Erase, HoldDelay), |w|, 1);
  }

  /** The timers of one cycle of word i. */
  function CycleLength(words: seq<string>, i: nat): nat
    requires i < |words|
  {
    2 * |words[i]| + 2
  }

  /** One full cycle: from an empty span with type due, the word is typed
      character by character, held, erased character by character, and the
      next word (after the last, the first) is due in 600 ms. */
  lemma WordCycle(words: seq<string>, i: nat, d: nat)
    requires i < |words|
    ensures Run(words, Typed(i, 0, ""), Timer(Type, d), CycleLength(words, i))
         == (Typed((i + 1) % |words|, 0, ""), Timer(Type, NextWordDelay))
  {
    var n := |words[i]|;
    TypeAndHold(words, i, d);
    EraseAndAdvance(words, i);
    RunAppend(words, Typed(i, 0, ""), Timer(Type, d), n + 1, n + 1);
  }

  /** The word after word i is the next one, or the first after the last;
      moving on k times from there is moving on k + 1 times from i. */
  lemma NextWord(i: nat, k: nat)
    requires i < |Words|
    ensures i % |Words| == i
    ensures (i + 1) % |Words| == if i + 1 < |Words| then i + 1 else 0
    ensures k > 0 ==> ((i + 1) % |Words| + (k - 1)) % |Words| == (i + k) % |Words|
  {
    if k > 0 && i + 1 == |Words| {
      assert i + k == (k - 1) + |Words|;
    }
  }

  /** The timers of k consecutive cycles of the page's words from word i. */
  function CyclesLength(i: nat, k: nat): nat
    requires i < |Words|
    decreases k
  {
    if k == 0 then 0 else CycleLength(Words, i) + CyclesLength((i + 1) % |Words|, k - 1)
  }

  /** After k complete cycles from word i the span is empty, word
      (i + k) mod 4 is next, and type is due. */
  lemma {:induction false} Cycles(i: nat, d: nat, k: nat)
    requires i < |Words|
    ensures var r := Run(Words, Typed(i, 0, ""), Timer(Type, d), CyclesLength(i, k));
      r.0 == Typed((i + k) % |Words|, 0, "")
      && r.1 == (if k == 0 then Timer(Type, d) else Timer(Type, NextWordDelay))
    decreases k
  {
    NextWord(i, k);
    if k > 0 {
      var j := (i + 1) % |Words|;
      WordCycle(Words, i, d);
      RunAppend(Words, Typed(i, 0, ""), Timer(Type, d), CycleLength(Words, i), CyclesLength(j, k - 1));
      Cycles(j, NextWordDelay, k - 1);
    }
  }

  /** From page load, once the four words have each been typed and erased,
      the first word is due again with an empty span. */
  lemma AllWordsCycle()
    ensures Run(Words, Initial, Timer(Type, StartDelay), CyclesLength(0, |Words|))
         == (Initial, Timer(Type, NextWordDelay))
  {
    Cycles(0, StartDelay, |Words|);
  }

  /** The span's writer: the closure variables of type and erase. */
  class Typewriter {
    var wordIndex: nat
    var charIndex: nat
    var text: string

    function State(): Typed
      reads this
    {
      Typed(wordIndex, charIndex, text)
    }

    ghost predicate Valid()
      reads this
    {
      InRange(Words, State()) && Shows(Words, State())
    }

    /** The effect starts with the first word and an empty span; the first
        type is due in 2000 ms. */
    constructor ()
      ensures State() == Initial && Valid()
    {
      wordIndex, charIndex, text := 0, 0, "";
    }

    /** type. */
    method TypeNext() returns (next: Timer)
      requires Valid()
      modifies this
      ensures Valid()
      ensures (State(), next) == TypeStep(Words, old(State()))
    {
      StepsKeepShowing(Words, State(), Type);
      if charIndex < |Words[wordIndex]| {
        text := text + [Words[wordIndex][charIndex]];
        charIndex := charIndex + 1;
        next := Timer(Type, TypeDelay);
      } else {
        next := Timer(Erase, HoldDelay);
      }
    }

    /** erase. */
    method EraseNext() returns (next: Timer)
      requires Valid()
      modifies this
      ensures Valid()
      ensures (State(), next) == EraseStep(Words, old(State()))
    {
      StepsKeepShowing(Words, State(), Erase);
      if charIndex > 0 {
        charIndex := charIndex - 1;
        text := Words[wordIndex][..charIndex];
        next := Timer(Erase, EraseDelay);
      } else {
        wordIndex := (wordIndex + 1) % |Words|;
        next := Timer(Type, NextWordDelay);
      }
    }
  }
}
