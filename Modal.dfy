/** The project and experience modals of js/main.js: a click on an element
    with a data-modal-key opens the modal only when modalData has that key,
    locks page scrolling and pauses the background animation; closing undoes
    both and resumes the animation. The modal's HTML is not modelled beyond
    the key of the entry shown and the placeholder-image key derived from its
    title. */
module Modal {
  import opened JsText
  import opened FrameLoop
  import opened ParticleMotion
  import opened ParticleLinks
  import opened ParticleField

  /** The two layouts openModal builds. */
  datatype Kind = ProjectKind | DetailKind

  /** The part of a modalData entry the logic looks at. */
  datatype Entry = Entry(kind: Kind, title: string)

  /** modalData: its keys, with each entry's type and title. */
  const ModalData: map<string, Entry> := map[
    "beetalogic" := Entry(DetailKind, "Java Developer"),
    "rinex" := Entry(DetailKind, "Java Developer Intern"),
    "gce" := Entry(DetailKind, "B.E. in Electronics and Communication"),
    "kongu" := Entry(DetailKind, "Higher Secondary (HSC)"),
    "kongu-sslc" := Entry(DetailKind, "SSLC"),
    "travelo" := Entry(ProjectKind, "Travelo"),
    "car-access" := Entry(ProjectKind, "Car Access Hub"),
    "ascentz" := Entry(ProjectKind, "Ascentz Technologies Website"),
    "boutique" := Entry(ProjectKind, "Boutique Shop")
  ]

  /** The key used for the placeholder image when none is given: a missing or
      empty title gives "Project". */
  const NoTitleKey: string := "Project"

  /** data.title ? data.title.replace(/\s+/g, '+') : 'Project'. */
  function PlaceholderKey(title: string): (key: string)
    ensures NoWhitespace(key)
    ensures key != []
    ensures title == "" ==> key == NoTitleKey
  {
    if title == "" then
      assert !IsWhitespace(NoTitleKey[0]);
      NoTitleKey
    else
      ReplaceLeavesNoWhitespace(title);
      ReplaceWhitespaceRuns(title)
  }

  /** A key is its own key: deriving it again changes nothing. */
  lemma PlaceholderKeyIdempotent(title: string)
    ensures PlaceholderKey(PlaceholderKey(title)) == PlaceholderKey(title)
  {
    var key := PlaceholderKey(title);
    ReplaceKeepsPlainText(key);
  }

  /** Two words separated by a run of whitespace give the two words joined
      by a single '+'. */
  lemma {:induction false} WordsJoinedByPlus(a: string, w: string, b: string)
    requires a != [] && NoWhitespace(a)
    requires |w| > 0 && AllWhitespace(w)
    requires NoWhitespace(b)
    ensures PlaceholderKey(a + w + b) == a + "+" + b
  {
    assert (a + w + b)[0] == a[0];
    assert a + w + b == a + (w + b);
    ReplaceKeepsPlainText(a);
    ReplaceKeepsPlainText(b);
    RunBecomesOnePlus(a, w, b);
  }

  /** Three words separated by whitespace runs give the words joined by
      '+' signs. */
  lemma {:induction false} ThreeWordsJoinedByPlus(a: string, w1: string, b: string, w2: string, c: string)
    requires a != [] && NoWhitespace(a) && b != [] && NoWhitespace(b) && NoWhitespace(c)
    requires |w1| > 0 && AllWhitespace(w1) && |w2| > 0 && AllWhitespace(w2)
    ensures PlaceholderKey(a + w1 + b + w2 + c) == a + "+" + b + "+" + c
  {
    var rest := b + w2 + c;
    assert rest[0] == b[0];
    assert a + w1 + b + w2 + c == a + (w1 + rest);
    assert (a + w1 + b + w2 + c)[0] == a[0];
    assert rest == b + (w2 + c);
    ReplaceKeepsPlainText(a);
    ReplaceKeepsPlainText(b);
    ReplaceKeepsPlainText(c);
    RunBecomesOnePlus(b, w2, c);
    RunBecomesOnePlus(a, w1, rest);
  }

  /** The car-access project's placeholder key. */
  lemma CarAccessKey()
    ensures PlaceholderKey(ModalData["car-access"].title) == "Car+Access+Hub"
  {
    assert "Car" + "+" + "Access" + "+" + "Hub" == "Car+Access+Hub";
    var title := ModalData["car-access"].title;
    assert "Car" + " " + "Access" + " " + "Hub" == title;
    ThreeWordsJoinedByPlus("Car", " ", "Access", " ", "Hub");
  }

  /** The overlay, the page's scroll lock and the canvas controls the modal
      calls; canvas is null when the animation was never set up, in which
      case window.pauseCanvasAnimation is undefined. */
  class ModalController {
    /** The overlay carries the active class. */
    var open: bool
    /** The html element carries no-scroll. */
    var noScroll: bool
    /** The modalData key whose content the container holds, "" before any. */
    var shown: string
    /** The key of the placeholder image the shown content falls back to: only
        the project layout has one, so "" for a detail modal (a placeholder
        key is never empty). */
    var imageKey: string
    const canvas: Field?

    ghost predicate Valid()
      reads this, canvas, if canvas != null then canvas.particles else []
    {
      canvas != null ==> canvas.Valid() && canvas.Contained()
    }

    constructor (canvas: Field?)
      requires canvas != null ==> canvas.Valid() && canvas.Contained()
      ensures Valid() && this.canvas == canvas
      ensures !open && !noScroll && shown == "" && imageKey == ""
    {
      this.canvas := canvas;
      open, noScroll, shown, imageKey := false, false, "", "";
    }

    /** A click on an element whose data-modal-key is key: open the modal only
        when modalData has that key, with the layout of the entry's type, and
        then pause the animation. */
    method Trigger(key: string)
      requires Valid()
      modifies this`open, this`noScroll, this`shown, this`imageKey, canvas
      ensures Valid()
      ensures key in ModalData ==> open && noScroll && shown == key
      ensures key in ModalData ==>
        imageKey == (if ModalData[key].kind == ProjectKind then PlaceholderKey(ModalData[key].title) else "")
      ensures key !in ModalData ==>
        open == old(open) && noScroll == old(noScroll) && shown == old(shown) && imageKey == old(imageKey)
      ensures canvas != null ==>
        canvas.Control() == (if key in ModalData then PauseStep(old(canvas.Control())) else old(canvas.Control()))
      ensures canvas != null ==> canvas.Pool() == old(canvas.Pool()) && canvas.lines == old(canvas.lines)
      ensures canvas != null ==> canvas.width == old(canvas.width) && canvas.height == old(canvas.height)
    {
      if key in ModalData {
        var data := ModalData[key];
        shown := key;
        imageKey := if data.kind == ProjectKind then PlaceholderKey(data.title) else "";
        open := true;
        noScroll := true;
        if canvas != null {
          canvas.Pause();
        }
      }
    }

    /** closeModal: hide the overlay, unlock scrolling and resume the
        animation, with the resume that does not start a second frame chain. */
    method Close()
      requires Valid()
      modifies this`open, this`noScroll, canvas, if canvas != null then canvas.particles else []
      ensures Valid()
      ensures !open && !noScroll && shown == old(shown) && imageKey == old(imageKey)
      ensures canvas != null ==> canvas.Control() == ResumeOnceStep(old(canvas.Control()))
      ensures canvas != null && !old(canvas.running) && old(canvas.pending) == 0 ==>
        canvas.Pool() == AdvanceAll(old(canvas.Pool()), canvas.width, canvas.height)
        && canvas.lines == Links(canvas.Pool(), canvas.hypot)
      ensures canvas != null && (old(canvas.running) || old(canvas.pending) > 0) ==>
        canvas.Pool() == old(canvas.Pool()) && canvas.lines == old(canvas.lines)
      ensures canvas != null ==> canvas.width == old(canvas.width) && canvas.height == old(canvas.height)
    {
      open := false;
      noScroll := false;
      if canvas != null {
        ghost var before := canvas.Pool();
        canvas.ResumeOnce();
        if canvas.Pool() != before {
          AdvanceAllKeepsSettled(before, canvas.width, canvas.height);
        }
      }
    }

    /** closeModal as written: the resume animates at once whenever the flag
        was clear, even with a frame still pending. */
    method CloseAsWritten()
      requires Valid()
      modifies this`open, this`noScroll, canvas, if canvas != null then canvas.particles else []
      ensures Valid()
      ensures !open && !noScroll && shown == old(shown) && imageKey == old(imageKey)
      ensures canvas != null ==> canvas.Control() == ResumeStep(old(canvas.Control()))
      ensures canvas != null && !old(canvas.running) ==>
        canvas.Pool() == AdvanceAll(old(canvas.Pool()), canvas.width, canvas.height)
        && canvas.lines == Links(canvas.Pool(), canvas.hypot)
      ensures canvas != null && old(canvas.running) ==>
        canvas.Pool() == old(canvas.Pool()) && canvas.lines == old(canvas.lines)
      ensures canvas != null ==> canvas.width == old(canvas.width) && canvas.height == old(canvas.height)
    {
      open := false;
      noScroll := false;
      if canvas != null {
        ghost var before := canvas.Pool();
        canvas.Resume();
        if canvas.Pool() != before {
          AdvanceAllKeepsSettled(before, canvas.width, canvas.height);
        }
      }
    }

    /** A click on the overlay closes the modal only when it lands on the
        overlay itself or inside the close button; any other click changes
        nothing. */
    method OverlayClick(onOverlay: bool, inCloseButton: bool)
      requires Valid()
      modifies this`open, this`noScroll, canvas, if canvas != null then canvas.particles else []
      ensures Valid()
      ensures shown == old(shown) && imageKey == old(imageKey)
      ensures onOverlay || inCloseButton ==> !open && !noScroll
      ensures !(onOverlay || inCloseButton) ==> open == old(open) && noScroll == old(noScroll)
      ensures canvas != null ==>
        canvas.Control() == (if onOverlay || inCloseButton then ResumeOnceStep(old(canvas.Control())) else old(canvas.Control()))
      ensures canvas != null && (onOverlay || inCloseButton) && !old(canvas.running) && old(canvas.pending) == 0 ==>
        canvas.Pool() == AdvanceAll(old(canvas.Pool()), canvas.width, canvas.height)
        && canvas.lines == Links(canvas.Pool(), canvas.hypot)
      ensures canvas != null && (!(onOverlay || inCloseButton) || old(canvas.running) || old(canvas.pending) > 0) ==>
        canvas.Pool() == old(canvas.Pool()) && canvas.lines == old(canvas.lines)
      ensures canvas != null ==> canvas.width == old(canvas.width) && canvas.height == old(canvas.height)
    {
      if onOverlay || inCloseButton {
        Close();
      }
    }

    /** The overlay's click handler as written: it closes through closeModal
        as written, so the resume animates at once whenever the flag was
        clear. */
    method OverlayClickAsWritten(onOverlay: bool, inCloseButton: bool)
      requires Valid()
      modifies this`open, this`noScroll, canvas, if canvas != null then canvas.particles else []
      ensures Valid()
      ensures shown == old(shown) && imageKey == old(imageKey)
      ensures onOverlay || inCloseButton ==> !open && !noScroll
      ensures !(onOverlay || inCloseButton) ==> open == old(open) && noScroll == old(noScroll)
      ensures canvas != null ==>
        canvas.Control() == (if onOverlay || inCloseButton then ResumeStep(old(canvas.Control())) else old(canvas.Control()))
      ensures canvas != null && (onOverlay || inCloseButton) && !old(canvas.running) ==>
        canvas.Pool() == AdvanceAll(old(canvas.Pool()), canvas.width, canvas.height)
        && canvas.lines == Links(canvas.Pool(), canvas.hypot)
      ensures canvas != null && (!(onOverlay || inCloseButton) || old(canvas.running)) ==>
        canvas.Pool() == old(canvas.Pool()) && canvas.lines == old(canvas.lines)
      ensures canvas != null ==> canvas.width == old(canvas.width) && canvas.height == old(canvas.height)
    {
      if onOverlay || inCloseButton {
        CloseAsWritten();
      }
    }
  }

  /** With the corrected resume, opening then closing a modal from a single
      animation chain keeps a single chain, whenever the frames in between
      fire. */
  lemma OpenCloseKeepsSingleChain(l: Loop, framesBetween: nat)
    requires SingleChain(l)
    ensures SingleChain(Run(l, [Pause] + Frames(framesBetween) + [Resume], true))
  {
    IntendedKeepsSingleChain(l, [Pause] + Frames(framesBetween) + [Resume]);
  }

  /** With the resume as written, opening then closing a modal while the
      animation runs, before its pending frame fires, leaves two frame
      callbacks pending: a second chain. */
  lemma OpenCloseAsWrittenDoubles(l: Loop)
    requires SingleChain(l) && l.running
    ensures Run(l, [Pause] + Frames(0) + [Resume], false) == Loop(true, 2, l.requests + 1)
    ensures !SingleChain(Run(l, [Pause] + Frames(0) + [Resume], false))
  {
    var events := [Pause] + Frames(0) + [Resume];
    assert events == [Pause, Resume];
    RunAppend(l, [Pause], [Resume], false);
    RunAppend(PauseStep(l), [Resume], [], false);
  }

  /** n frame callbacks in a row. */
  function Frames(n: nat): (es: seq<Event>)
    ensures |es| == n
    ensures forall k :: 0 <= k < n ==> es[k] == Frame
  {
    if n == 0 then [] else [Frame] + Frames(n - 1)
  }
}
