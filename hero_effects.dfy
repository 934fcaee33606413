/**
 * The typewriter effect on the hero quote in js/main.js: on first load the quote's text is taken
 * out of the element, a cursor border is shown, and each interval tick appends the next character
 * until the whole text is back; then the interval stops and the cursor is removed.
 */
module HeroEffects {

  /**
   * The effect's state: the full `text`, what the element shows, the index `i`, whether the
   * interval is running, and whether the cursor border is shown.
   */
  datatype TypewriterState = TypewriterState(text: string, shown: string, i: nat, typing: bool, cursor: bool)

  /** The state just after start-up for a quote whose text is `text`. */
  function Started(text: string): TypewriterState {
    TypewriterState(text, "", 0, true, true)
  }

  /** What the element shows is the first `i` characters of the text. */
  predicate Revealing(s: TypewriterState) {
    s.i <= |s.text| && s.shown == s.text[..s.i]
  }

  /** One interval tick: append `text.charAt(i)` while `i < text.length`, otherwise stop the interval. */
  function TickStep(s: TypewriterState): TypewriterState {
    if !s.typing then s
    else if s.i < |s.text| then s.(shown := s.shown + [s.text[s.i]], i := s.i + 1)
    else s.(typing := false)
  }

  /** The state after `k` ticks. */
  function Ticks(s: TypewriterState, k: nat): TypewriterState {
    if k == 0 then s else TickStep(Ticks(s, k - 1))
  }

  /** A tick keeps the element showing a prefix of the text, one character longer while typing. */
  lemma TickKeepsRevealing(s: TypewriterState)
    requires Revealing(s)
    ensures Revealing(TickStep(s))
    ensures s.typing && s.i < |s.text| ==> TickStep(s).i == s.i + 1
  {
    var t := TickStep(s);
    if s.typing && s.i < |s.text| {
      assert s.text[..s.i + 1] == s.text[..s.i] + [s.text[s.i]];
    }
  }

  /**
   * After `k` ticks from start-up the element shows the first `min(k, |text|)` characters, and the
   * interval is still running exactly when `k <= |text|`: the tick after the last character stops it.
   */
  lemma {:induction false} TicksReveal(text: string, k: nat)
    ensures var s := Ticks(Started(text), k);
      s.text == text && Revealing(s)
      && s.i == (if k <= |text| then k else |text|)
      && s.shown == text[..s.i]
      && (s.typing <==> k <= |text|)
      && s.cursor
  {
    if k > 0 {
      TicksReveal(text, k - 1);
      TickKeepsRevealing(Ticks(Started(text), k - 1));
    }
  }

  /** Once the whole text is shown and the interval has stopped, further ticks change nothing. */
  lemma {:induction false} StoppedStaysStopped(s: TypewriterState, k: nat)
    requires !s.typing
    ensures Ticks(s, k) == s
  {
    if k > 0 {
      StoppedStaysStopped(s, k - 1);
    }
  }

  /** The hero quote element and the variables of its handler. */
  class Typewriter {
    var textContent: string
    var typed: bool
    var text: string
    var i: nat
    var typing: bool
    var cursor: bool

    constructor (quote: string)
      ensures textContent == quote && !typed && !typing && !cursor
    {
      textContent := quote;
      typed := false;
      text := "";
      i := 0;
      typing := false;
      cursor := false;
    }

    function State(): TypewriterState
      reads this
    {
      TypewriterState(text, textContent, i, typing, cursor)
    }

    /**
     * The guarded start-up: an element flagged `data-typed` is left alone; otherwise it is flagged,
     * its text is saved and cleared, the cursor appears and the interval begins.
     */
    method Start()
      modifies this
      ensures old(typed) ==> State() == old(State()) && typed
      ensures !old(typed) ==> State() == Started(old(textContent)) && typed
    {
      if !typed {
        typed := true;
        text := textContent;
        textContent := "";
        cursor := true;
        i := 0;
        typing := true;
      }
    }

    /** One tick of the interval. */
    method Tick()
      modifies this
      ensures State() == TickStep(old(State()))
      ensures typed == old(typed)
    {
      if typing {
        if i < |text| {
          textContent := textContent + [text[i]];
          i := i + 1;
        } else {
          typing := false;
        }
      }
    }

    /** The timeout that follows the stop: the cursor border is removed. */
    method RemoveCursor()
      modifies this
      ensures State() == old(State()).(cursor := false)
      ensures typed == old(typed)
    {
      cursor := false;
    }
  }
}
