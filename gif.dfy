/**
 * The playback controller of the `Gif` card (components/Gif/index.js).
 *
 * The card keeps four booleans. Mouse-enter, mouse-leave and click on the card
 * start or pause the embedded video; an `autoplay` prop freezes those three
 * handlers. An overlay button keeps its own hover and click flags and, when
 * clicked, navigates to the gif's detail page.
 *
 * The video's `play()`/`pause()` and the browser navigation are recorded as
 * `Effect`s in the order they happen.
 */
module GifComponent {
  import opened Wrappers

  /** A side effect performed by a handler. */
  datatype Effect = PlayVideo | PauseVideo | Navigate(url: string)

  /** The component's `state`. */
  datatype PlayState = PlayState(play: bool, mouseover: bool, buttonHover: bool, buttonClicked: bool)

  /** The DOM events the component listens to. */
  datatype Event =
    | MouseEnter | MouseLeave | Click                              // on the card
    | ButtonFocus | ButtonMouseOver | ButtonMouseLeave | ButtonClick  // on the overlay button
  {
    predicate OnCard() { MouseEnter? || MouseLeave? || Click? }
  }

  /** What one handler does: the new state and the effects it performed. */
  datatype Outcome = Outcome(state: PlayState, effects: seq<Effect>)

  function InitialState(autoplay: bool): PlayState {
    PlayState(autoplay, false, false, false)
  }

  /** The detail page of a gif. */
  function DetailUrl(username: string, slug: string): (url: string)
    ensures |url| == |username| + |slug| + 2 && url[0] == '/' && url[1..|username| + 1] == username
    ensures url[|username| + 1] == '/' && url[|username| + 2..] == slug
  {
    "/" + username + "/" + slug
  }

  /** The handler of event `e`, run from state `s`. */
  function Step(autoplay: bool, username: string, slug: string, s: PlayState, e: Event): (o: Outcome)
    ensures |o.effects| <= 1
    ensures autoplay && e.OnCard() ==> o == Outcome(s, [])
    ensures e.OnCard() ==> o.state.buttonHover == s.buttonHover && o.state.buttonClicked == s.buttonClicked
    ensures !e.OnCard() ==> o.state.play == s.play && o.state.mouseover == s.mouseover
    ensures o.effects == [PlayVideo] ==> o.state.play
    ensures o.effects == [PauseVideo] ==> !o.state.play
  {
    match e
    case MouseEnter =>
      if autoplay then Outcome(s, [])
      else Outcome(s.(play := true, mouseover := true), [PlayVideo])
    case MouseLeave =>
      if autoplay then Outcome(s, [])
      else Outcome(s.(play := false, mouseover := false), [PauseVideo])
    case Click =>
      if autoplay then Outcome(s, [])
      else if s.play && !s.mouseover then Outcome(s.(play := false), [PauseVideo])
      else Outcome(s.(play := true), [PlayVideo])
    case ButtonFocus => Outcome(s.(buttonHover := true), [])
    case ButtonMouseOver => Outcome(s.(buttonHover := true), [])
    case ButtonMouseLeave => Outcome(s.(buttonHover := false, buttonClicked := false), [])
    case ButtonClick => Outcome(s.(buttonClicked := true), [Navigate(DetailUrl(username, slug))])
  }

  /** The handlers of `es`, run one after the other from state `s`. */
  function Run(autoplay: bool, username: string, slug: string, s: PlayState, es: seq<Event>): (o: Outcome)
    ensures |o.effects| <= |es|
    decreases |es|
  {
    if es == [] then Outcome(s, [])
    else
      var first := Step(autoplay, username, slug, s, es[0]);
      var rest := Run(autoplay, username, slug, first.state, es[1..]);
      Outcome(rest.state, first.effects + rest.effects)
  }

  /** The last media call in `effects`: `Some(true)` for `play()`, `Some(false)` for `pause()`. */
  function LastMediaCall(effects: seq<Effect>): Option<bool>
    decreases |effects|
  {
    if effects == [] then None
    else match effects[|effects| - 1]
      case PlayVideo => Some(true)
      case PauseVideo => Some(false)
      case Navigate(_) => LastMediaCall(effects[..|effects| - 1])
  }

  /**
   * The invariant of the component: `play` agrees with the last media call made
   * (or with `autoplay` before any call), the card is only hovered while playing,
   * and an autoplaying card never calls the video and is never marked hovered.
   */
  predicate Consistent(autoplay: bool, s: PlayState, effects: seq<Effect>) {
    && s.play == LastMediaCall(effects).GetOr(autoplay)
    && (s.mouseover ==> s.play)
    && (autoplay ==> LastMediaCall(effects) == None && !s.mouseover)
  }

  /** Whether the play icon is drawn over the card (`<Play show={!this.state.play} />`). */
  predicate PlayIconShown(s: PlayState) {
    !s.play
  }

  lemma {:induction false} LastMediaCallAppend(a: seq<Effect>, b: seq<Effect>)
    ensures LastMediaCall(a + b) == if LastMediaCall(b).Some? then LastMediaCall(b) else LastMediaCall(a)
    decreases |b|
  {
    if b != [] {
      var n := |b| - 1;
      assert (a + b)[..|a + b| - 1] == a + b[..n];
      assert (a + b)[|a + b| - 1] == b[n];
      LastMediaCallAppend(a, b[..n]);
    } else {
      assert a + b == a;
    }
  }

  /** A fresh component is consistent. */
  lemma InitialConsistent(autoplay: bool)
    ensures Consistent(autoplay, InitialState(autoplay), [])
    ensures !InitialState(autoplay).mouseover && !InitialState(autoplay).buttonHover
    ensures !InitialState(autoplay).buttonClicked && InitialState(autoplay).play == autoplay
  {
  }

  /** Every handler keeps the invariant. */
  lemma StepConsistent(autoplay: bool, username: string, slug: string, s: PlayState, effects: seq<Effect>, e: Event)
    requires Consistent(autoplay, s, effects)
    ensures var o := Step(autoplay, username, slug, s, e); Consistent(autoplay, o.state, effects + o.effects)
  {
    var o := Step(autoplay, username, slug, s, e);
    LastMediaCallAppend(effects, o.effects);
    if e == ButtonClick {
      assert LastMediaCall(o.effects) == LastMediaCall([]);
    }
  }

  /** Any sequence of events keeps the invariant. */
  lemma {:induction false} RunConsistent(autoplay: bool, username: string, slug: string, s: PlayState, effects: seq<Effect>, es: seq<Event>)
    requires Consistent(autoplay, s, effects)
    ensures var o := Run(autoplay, username, slug, s, es); Consistent(autoplay, o.state, effects + o.effects)
    decreases |es|
  {
    if es != [] {
      var first := Step(autoplay, username, slug, s, es[0]);
      StepConsistent(autoplay, username, slug, s, effects, es[0]);
      RunConsistent(autoplay, username, slug, first.state, effects + first.effects, es[1..]);
      var rest := Run(autoplay, username, slug, first.state, es[1..]);
      assert Run(autoplay, username, slug, s, es) == Outcome(rest.state, first.effects + rest.effects);
      assert effects + first.effects + rest.effects == effects + (first.effects + rest.effects);
    } else {
      assert effects + [] == effects;
    }
  }

  /**
   * From mount on, after any sequence of events, `play` is true exactly when the
   * last media call was `play()` (or, with no call yet, when `autoplay` is set).
   */
  lemma PlayMatchesLastCall(autoplay: bool, username: string, slug: string, es: seq<Event>)
    ensures var o := Run(autoplay, username, slug, InitialState(autoplay), es);
      && (LastMediaCall(o.effects) == Some(true) ==> o.state.play)
      && (LastMediaCall(o.effects) == Some(false) ==> !o.state.play)
      && (LastMediaCall(o.effects) == None ==> o.state.play == autoplay)
  {
    InitialConsistent(autoplay);
    RunConsistent(autoplay, username, slug, InitialState(autoplay), [], es);
    assert [] + Run(autoplay, username, slug, InitialState(autoplay), es).effects
        == Run(autoplay, username, slug, InitialState(autoplay), es).effects;
  }

  /**
   * Without autoplay, from mount, the play icon shows after any events exactly
   * when the last media call was not `play()`: before any call, or after `pause()`.
   */
  lemma PlayIconTracksLastCall(username: string, slug: string, es: seq<Event>)
    ensures var o := Run(false, username, slug, InitialState(false), es);
      PlayIconShown(o.state) <==> LastMediaCall(o.effects) != Some(true)
  {
    PlayMatchesLastCall(false, username, slug, es);
    var o := Run(false, username, slug, InitialState(false), es);
    match LastMediaCall(o.effects)
    case None =>
    case Some(b) => assert b || LastMediaCall(o.effects) == Some(false);
  }

  /** With `autoplay`, the card's handlers change nothing and call neither `play()` nor `pause()`. */
  lemma AutoplayFreezesCard(username: string, slug: string, s: PlayState, e: Event)
    requires e.OnCard()
    ensures Step(true, username, slug, s, e) == Outcome(s, [])
  {
  }

  /**
   * With `autoplay`, no sequence of events changes `play` or calls the video; an
   * autoplaying card from mount never shows the play icon.
   */
  lemma {:induction false} AutoplayKeepsPlaying(username: string, slug: string, s: PlayState, es: seq<Event>)
    ensures var o := Run(true, username, slug, s, es);
      o.state.play == s.play && o.state.mouseover == s.mouseover && LastMediaCall(o.effects) == None
    ensures s == InitialState(true) ==> !PlayIconShown(Run(true, username, slug, s, es).state)
    decreases |es|
  {
    if es != [] {
      var first := Step(true, username, slug, s, es[0]);
      AutoplayKeepsPlaying(username, slug, first.state, es[1..]);
      var rest := Run(true, username, slug, first.state, es[1..]);
      LastMediaCallAppend(first.effects, rest.effects);
      if es[0] == ButtonClick {
        assert LastMediaCall(first.effects) == LastMediaCall([]);
      }
    }
  }

  /** Mouse-enter (without autoplay) calls `play()` once and leaves the card playing and hovered. */
  lemma MouseEnterPlays(username: string, slug: string, s: PlayState)
    ensures var o := Step(false, username, slug, s, MouseEnter);
      o.effects == [PlayVideo] && o.state.play && o.state.mouseover
      && o.state.buttonHover == s.buttonHover && o.state.buttonClicked == s.buttonClicked
  {
  }

  /** Mouse-leave (without autoplay) calls `pause()` once and leaves the card paused and not hovered. */
  lemma MouseLeavePauses(username: string, slug: string, s: PlayState)
    ensures var o := Step(false, username, slug, s, MouseLeave);
      o.effects == [PauseVideo] && !o.state.play && !o.state.mouseover
      && o.state.buttonHover == s.buttonHover && o.state.buttonClicked == s.buttonClicked
  {
  }

  /**
   * A click (without autoplay) pauses exactly when the card is playing and not
   * hovered, and plays otherwise; the hover flag is left alone. In particular a
   * click while hovering always ends playing, and a click on a paused card plays.
   */
  lemma ClickToggles(username: string, slug: string, s: PlayState)
    ensures var o := Step(false, username, slug, s, Click);
      && (o.effects == [PauseVideo] <==> s.play && !s.mouseover)
      && (o.effects == [PlayVideo] <==> !(s.play && !s.mouseover))
      && o.state == s.(play := !(s.play && !s.mouseover))
    ensures s.mouseover ==> Step(false, username, slug, s, Click).state.play
    ensures !s.play ==> Step(false, username, slug, s, Click).state.play
  {
  }

  /**
   * The overlay button never touches `play` or `mouseover`; leaving it clears both
   * of its flags, and clicking it marks it clicked and navigates to
   * `/<username>/<slug>`.
   */
  lemma ButtonHandlers(autoplay: bool, username: string, slug: string, s: PlayState, e: Event)
    requires !e.OnCard()
    ensures var o := Step(autoplay, username, slug, s, e);
      && o.state.play == s.play && o.state.mouseover == s.mouseover
      && (e == ButtonMouseLeave ==> !o.state.buttonHover && !o.state.buttonClicked && o.effects == [])
      && (e == ButtonClick ==> o.state.buttonClicked && o.effects == [Navigate("/" + username + "/" + slug)])
      && (e == ButtonFocus || e == ButtonMouseOver ==> o.state.buttonHover && o.effects == [])
  {
  }

  /** The component: its props, its state, and the effects performed so far. */
  class Gif {
    const autoplay: bool
    const username: string
    const slug: string
    var play: bool
    var mouseover: bool
    var buttonHover: bool
    var buttonClicked: bool
    var effects: seq<Effect>

    function State(): PlayState
      reads this
    {
      PlayState(play, mouseover, buttonHover, buttonClicked)
    }

    ghost predicate Valid()
      reads this
    {
      Consistent(autoplay, State(), effects)
    }

    /** Mounting: `play` starts as the `autoplay` prop, every other flag false. */
    constructor(autoplay: bool, username: string, slug: string)
      ensures this.autoplay == autoplay && this.username == username && this.slug == slug
      ensures play == autoplay && !mouseover && !buttonHover && !buttonClicked
      ensures effects == []
      ensures State() == InitialState(autoplay) && Valid()
    {
      this.autoplay := autoplay;
      this.username := username;
      this.slug := slug;
      play := autoplay;
      mouseover := false;
      buttonHover := false;
      buttonClicked := false;
      effects := [];
      new;
      InitialConsistent(autoplay);
    }

    /** `this.video.play()`. */
    method PlayVideo()
      modifies this`effects
      ensures effects == old(effects) + [Effect.PlayVideo]
    {
      effects := effects + [Effect.PlayVideo];
    }

    /** `this.video.pause()`. */
    method PauseVideo()
      modifies this`effects
      ensures effects == old(effects) + [Effect.PauseVideo]
    {
      effects := effects + [Effect.PauseVideo];
    }

    method OnMouseEnterHandler()
      requires Valid()
      modifies this
      ensures Valid()
      ensures autoplay ==> State() == old(State()) && effects == old(effects)
      ensures !autoplay ==> play && mouseover && effects == old(effects) + [Effect.PlayVideo]
      ensures buttonHover == old(buttonHover) && buttonClicked == old(buttonClicked)
      ensures var o := Step(autoplay, username, slug, old(State()), MouseEnter);
        State() == o.state && effects == old(effects) + o.effects
    {
      StepConsistent(autoplay, username, slug, State(), effects, MouseEnter);
      if autoplay {
        return;
      }
      PlayVideo();
      play, mouseover := true, true;
    }

    method OnMouseLeaveHandler()
      requires Valid()
      modifies this
      ensures Valid()
      ensures autoplay ==> State() == old(State()) && effects == old(effects)
      ensures !autoplay ==> !play && !mouseover && effects == old(effects) + [Effect.PauseVideo]
      ensures buttonHover == old(buttonHover) && buttonClicked == old(buttonClicked)
      ensures var o := Step(autoplay, username, slug, old(State()), MouseLeave);
        State() == o.state && effects == old(effects) + o.effects
    {
      StepConsistent(autoplay, username, slug, State(), effects, MouseLeave);
      if autoplay {
        return;
      }
      PauseVideo();
      play, mouseover := false, false;
    }

    method OnClick()
      requires Valid()
      modifies this
      ensures Valid()
      ensures autoplay ==> State() == old(State()) && effects == old(effects)
      ensures !autoplay && old(play && !mouseover) ==> !play && effects == old(effects) + [Effect.PauseVideo]
      ensures !autoplay && !old(play && !mouseover) ==> play && effects == old(effects) + [Effect.PlayVideo]
      ensures mouseover == old(mouseover) && buttonHover == old(buttonHover) && buttonClicked == old(buttonClicked)
      ensures var o := Step(autoplay, username, slug, old(State()), Click);
        State() == o.state && effects == old(effects) + o.effects
    {
      StepConsistent(autoplay, username, slug, State(), effects, Click);
      if autoplay {
        return;
      }
      if play && !mouseover {
        PauseVideo();
        play := false;
      } else {
        PlayVideo();
        play := true;
      }
    }

    /** The overlay button's `onFocus` and `onMouseOver`. */
    method OnButtonHover()
      requires Valid()
      modifies this`buttonHover
      ensures Valid() && buttonHover
      ensures State() == Step(autoplay, username, slug, old(State()), ButtonMouseOver).state
    {
      buttonHover := true;
    }

    /** The overlay button's `onMouseLeave`. */
    method OnButtonMouseLeave()
      requires Valid()
      modifies this`buttonHover, this`buttonClicked
      ensures Valid() && !buttonHover && !buttonClicked
      ensures State() == Step(autoplay, username, slug, old(State()), ButtonMouseLeave).state
    {
      buttonHover, buttonClicked := false, false;
    }

    /** The overlay button's `onClick`: mark it clicked and go to the detail page. */
    method OnButtonClick()
      requires Valid()
      modifies this`buttonClicked, this`effects
      ensures Valid() && buttonClicked
      ensures effects == old(effects) + [Navigate("/" + username + "/" + slug)]
      ensures var o := Step(autoplay, username, slug, old(State()), ButtonClick);
        State() == o.state && effects == old(effects) + o.effects
    {
      StepConsistent(autoplay, username, slug, State(), effects, ButtonClick);
      buttonClicked := true;
      effects := effects + [Navigate(DetailUrl(username, slug))];
    }
  }
}
