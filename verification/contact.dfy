/**
 * The contact form: controlled inputs updated field by field, and the
 * simulated submission. A submit sets `isSubmitting` and schedules the 2 s
 * "send" timer; when that fires the status becomes success, the flag drops
 * and the fields are cleared, and a 3 s timer is scheduled that sets the
 * status back to null. Each timer firing is an explicit event.
 */
module Contact {

  /** The `name` attribute of an input: which key of `formData` it writes. */
  datatype Field = Name | Email | Subject | Message

  datatype FormData = FormData(name: string, email: string, subject: string, message: string)

  /** `submitStatus`: `null` or `"success"`; no other value is ever stored. */
  datatype Status = Idle | Success

  const Empty: FormData := FormData("", "", "", "")

  function Get(d: FormData, f: Field): string {
    match f
    case Name => d.name
    case Email => d.email
    case Subject => d.subject
    case Message => d.message
  }

  /** `handleInputChange`: `{...formData, [e.target.name]: e.target.value}`. */
  function InputChange(d: FormData, f: Field, value: string): (r: FormData)
    ensures Get(r, f) == value
    ensures forall g :: g != f ==> Get(r, g) == Get(d, g)
  {
    match f
    case Name => d.(name := value)
    case Email => d.(email := value)
    case Subject => d.(subject := value)
    case Message => d.(message := value)
  }

  /** Writing back what a field holds changes nothing; a second write to a field overrides the first. */
  lemma InputChangeLaws(d: FormData, f: Field, v: string, w: string)
    ensures InputChange(d, f, Get(d, f)) == d
    ensures InputChange(InputChange(d, f, v), f, w) == InputChange(d, f, w)
  {
  }

  /** The `required` attributes: the browser submits only when no field is empty. */
  predicate Filled(d: FormData) {
    forall f :: Get(d, f) != ""
  }

  datatype Form = Form(
    data: FormData,
    isSubmitting: bool,
    status: Status,
    sendPending: nat,    // scheduled 2 s completion timers
    resetPending: nat)   // scheduled 3 s status-reset timers

  function Init(): Form {
    Form(Empty, false, Idle, 0, 0)
  }

  datatype Event =
    | Input(field: Field, value: string)
    | Submit
    | SendElapsed
    | ResetElapsed

  /**
   * `handleSubmit`. The submit button is disabled while a send is under way,
   * and with the default button disabled the form is not submitted by the
   * Enter key either, so a submit reaches the handler only when idle and filled.
   */
  function OnSubmit(s: Form): (r: Form)
    ensures !s.isSubmitting && Filled(s.data) ==> r.isSubmitting && r.sendPending == s.sendPending + 1
    ensures s.isSubmitting || !Filled(s.data) ==> r == s
    ensures r.data == s.data && r.status == s.status && r.resetPending == s.resetPending
  {
    if s.isSubmitting || !Filled(s.data) then s
    else s.(isSubmitting := true, sendPending := s.sendPending + 1)
  }

  /** The completion timer: success, not submitting, fields cleared, status reset scheduled. */
  function OnSendElapsed(s: Form): (r: Form)
    ensures s.sendPending > 0 ==>
      && r.status == Success && !r.isSubmitting && r.data == Empty
      && r.sendPending + 1 == s.sendPending && r.resetPending == s.resetPending + 1
    ensures s.sendPending == 0 ==> r == s
  {
    if s.sendPending == 0 then s
    else Form(Empty, false, Success, s.sendPending - 1, s.resetPending + 1)
  }

  /** The reset timer: the status returns to null; nothing else changes. */
  function OnResetElapsed(s: Form): (r: Form)
    ensures s.resetPending > 0 ==> r.status == Idle && r.resetPending + 1 == s.resetPending
    ensures r.data == s.data && r.isSubmitting == s.isSubmitting && r.sendPending == s.sendPending
    ensures s.resetPending == 0 ==> r == s
  {
    if s.resetPending == 0 then s
    else s.(status := Idle, resetPending := s.resetPending - 1)
  }

  function Step(s: Form, e: Event): Form {
    match e
    case Input(f, v) => s.(data := InputChange(s.data, f, v))
    case Submit => OnSubmit(s)
    case SendElapsed => OnSendElapsed(s)
    case ResetElapsed => OnResetElapsed(s)
  }

  function Run(s: Form, es: seq<Event>): Form
    decreases |es|
  {
    if |es| == 0 then s else Run(Step(s, es[0]), es[1..])
  }

  /**
   * At most one send is in flight, and exactly while the form is submitting;
   * a success status always has a reset timer pending to clear it.
   */
  predicate Inv(s: Form) {
    && s.sendPending <= 1
    && (s.isSubmitting <==> s.sendPending == 1)
    && (s.status == Success ==> s.resetPending >= 1)
  }

  lemma {:induction false} RunInv(s: Form, es: seq<Event>)
    requires Inv(s)
    ensures Inv(Run(s, es))
    decreases |es|
  {
    if |es| > 0 {
      assert Inv(Step(s, es[0]));
      RunInv(Step(s, es[0]), es[1..]);
    }
  }

  /** A filled, idle form: submit, then the completion timer, gives a cleared form showing success. */
  lemma SubmitThenSend(s: Form)
    requires Inv(s) && !s.isSubmitting && Filled(s.data)
    ensures var r := Run(s, [Submit, SendElapsed]);
      r.status == Success && !r.isSubmitting && r.data == Empty && Inv(r)
  {
  }

  /** Whatever is typed while a send is under way is discarded when it completes. */
  lemma TypingDuringSendIsCleared(s: Form, f: Field, v: string)
    requires Inv(s) && s.isSubmitting
    ensures OnSendElapsed(Step(s, Input(f, v))).data == Empty
  {
  }

  // ---------------------------------------------------------------------
  // Rendering conditions.

  /** The success banner. */
  predicate BannerShown(s: Form) {
    s.status == Success
  }

  /** The submit button's label and its `disabled` attribute. */
  function Button(s: Form): (b: (string, bool))
    ensures b.0 == "Sending..." <==> s.isSubmitting
    ensures b.0 == "Send Message" <==> !s.isSubmitting
    ensures b.1 <==> s.isSubmitting
  {
    (if s.isSubmitting then "Sending..." else "Send Message", s.isSubmitting)
  }

  /** Only a completed send shows the banner, and then the button is enabled again. */
  lemma BannerFollowsSend(s: Form, e: Event)
    requires Inv(s) && !BannerShown(s)
    ensures BannerShown(Step(s, e)) ==> e == SendElapsed && s.isSubmitting && !Button(Step(s, e)).1
  {
  }
}
