/** The read-to-bottom gate of `src/components/customer-info/TermsDialog.tsx`:
    a scroll event that reaches the bottom (with a 10-pixel tolerance) sets the
    dialog's flag and notifies the form once; opening the dialog clears the
    flag; the close button appears only once the flag is set. Scroll offsets
    are whole pixels. */
module TermsDialog {

  /** The slack the bottom test allows, in pixels. */
  const Tolerance: int := 10

  /** The dialog: whether it is open, `hasScrolledToBottom`, and how many times the
      form has been notified since the dialog last opened. */
  datatype Dialog = Dialog(open: bool, scrolledToBottom: bool, notified: nat)

  const Initial: Dialog := Dialog(false, false, 0)

  datatype Event =
    | Opened
    | Closed
    | Scrolled(scrollTop: int, clientHeight: int, scrollHeight: int)

  /** `scrollTop + clientHeight >= scrollHeight - 10`. */
  predicate AtBottom(scrollTop: int, clientHeight: int, scrollHeight: int)
  {
    scrollTop + clientHeight >= scrollHeight - Tolerance
  }

  /** One event. `open` becoming true runs the reset effect; a scroll runs `handleScroll`. */
  function Step(d: Dialog, e: Event): (r: Dialog)
    ensures r.notified > d.notified ==> e.Scrolled? && AtBottom(e.scrollTop, e.clientHeight, e.scrollHeight)
    ensures e.Scrolled? ==> r.open == d.open
    ensures e.Opened? && !d.open ==> !r.scrolledToBottom && r.notified == 0
  {
    match e {
      case Opened => if d.open then d else Dialog(true, false, 0)
      case Closed => d.(open := false)
      case Scrolled(top, client, height) =>
        if AtBottom(top, client, height) && !d.scrolledToBottom then
          d.(scrolledToBottom := true, notified := d.notified + 1)
        else d
    }
  }

  /** The close button is rendered instead of the prompt exactly when the flag is set. */
  predicate CloseButtonShown(d: Dialog) { d.scrolledToBottom }

  /** The flag records exactly whether the form was notified since the last opening,
      and that happened at most once. */
  predicate Invariant(d: Dialog)
  {
    d.notified <= 1 && (d.notified == 1 <==> d.scrolledToBottom)
  }

  lemma StepKeepsInvariant(d: Dialog, e: Event)
    requires Invariant(d)
    ensures Invariant(Step(d, e))
  {
  }

  function Run(d: Dialog, events: seq<Event>): Dialog
    decreases |events|
  {
    if events == [] then d else Run(Step(d, events[0]), events[1..])
  }

  /** Over any run the form is notified at most once per opening, and the close
      button shows only after that notification. */
  lemma {:induction false} RunKeepsInvariant(d: Dialog, events: seq<Event>)
    requires Invariant(d)
    ensures Invariant(Run(d, events))
    ensures CloseButtonShown(Run(d, events)) ==> Run(d, events).notified == 1
    decreases |events|
  {
    if events != [] {
      StepKeepsInvariant(d, events[0]);
      RunKeepsInvariant(Step(d, events[0]), events[1..]);
    }
  }

  /** Scrolling that stays above the bottom changes nothing. */
  lemma ScrollAboveBottomIgnored(d: Dialog, top: int, client: int, height: int)
    requires !AtBottom(top, client, height)
    ensures Step(d, Scrolled(top, client, height)) == d
  {
  }

  /** A bottom scroll after opening notifies the form and shows the close button; a
      second one does nothing more. */
  lemma FirstBottomScrollNotifies(d: Dialog, top: int, client: int, height: int)
    requires d.open && !d.scrolledToBottom && AtBottom(top, client, height)
    ensures var r := Step(d, Scrolled(top, client, height));
            r.notified == d.notified + 1 && CloseButtonShown(r)
            && Step(r, Scrolled(top, client, height)) == r
  {
  }

  /** Reopening the dialog hides the close button again until the next bottom scroll. */
  lemma ReopenResets(d: Dialog)
    ensures var r := Step(Step(d, Closed), Opened);
            !CloseButtonShown(r) && r.notified == 0 && r.open
  {
  }
}
