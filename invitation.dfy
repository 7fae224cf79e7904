/** The invitation page's state: the Yes button's re-entry guard and outcome,
    and the dodging No button, whose every hover or click grows the Yes button
    and shrinks the No button. The request's network outcome is an input; the
    No button's random position and all rendering are not modelled. */
module Invitation {
  import opened Js

  const INITIAL_SIZE: int := 100
  const YES_MAX: int := 200
  const YES_STEP: int := 20
  const NO_MIN: int := 40
  const NO_STEP: int := 10

  /** `Math.min(prev + 20, 200)` */
  function GrowYes(size: int): (r: int)
    ensures r <= YES_MAX
    ensures size <= r || r == YES_MAX
    ensures r == YES_MAX || r == size + YES_STEP
    ensures size + YES_STEP <= YES_MAX ==> r == size + YES_STEP
  {
    if size + YES_STEP < YES_MAX then size + YES_STEP else YES_MAX
  }

  /** `Math.max(prev - 10, 40)` */
  function ShrinkNo(size: int): (r: int)
    ensures r >= NO_MIN
    ensures r <= size || r == NO_MIN
    ensures r == NO_MIN || r == size - NO_STEP
    ensures size - NO_STEP >= NO_MIN ==> r == size - NO_STEP
  {
    if size - NO_STEP > NO_MIN then size - NO_STEP else NO_MIN
  }

  /** The Yes button size after `n` dodges, in closed form. */
  function YesSizeAfter(n: nat): (r: int)
    ensures INITIAL_SIZE <= r <= YES_MAX
  {
    if INITIAL_SIZE + YES_STEP * n < YES_MAX then INITIAL_SIZE + YES_STEP * n else YES_MAX
  }

  /** The No button size after `n` dodges, in closed form. */
  function NoSizeAfter(n: nat): (r: int)
    ensures NO_MIN <= r <= INITIAL_SIZE
  {
    if INITIAL_SIZE - NO_STEP * n > NO_MIN then INITIAL_SIZE - NO_STEP * n else NO_MIN
  }

  /** One dodge step agrees with the closed form. */
  lemma StepAgrees(n: nat)
    ensures GrowYes(YesSizeAfter(n)) == YesSizeAfter(n + 1)
    ensures ShrinkNo(NoSizeAfter(n)) == NoSizeAfter(n + 1)
  {
  }

  /** Across dodges the Yes button never shrinks and the No button never grows. */
  lemma SizesMonotone(m: nat, n: nat)
    requires m <= n
    ensures YesSizeAfter(m) <= YesSizeAfter(n)
    ensures NoSizeAfter(m) >= NoSizeAfter(n)
  {
  }

  /** The text under the buttons: nothing before the first dodge, one text for
      each of the first five dodges, and one text from the sixth on. */
  function Caption(attempts: nat): (r: Option<string>)
    ensures r.None? <==> attempts == 0
  {
    if attempts == 0 then None
    else if attempts == 1 then Some("Oops! The button moved! 🙈")
    else if attempts == 2 then Some("You can't say no to this! 🥺")
    else if attempts == 3 then Some("Just click YES already! 🥹")
    else if attempts == 4 then Some("The NO button doesn't work! 💝")
    else if attempts == 5 then Some("It's impossible to say no! 😄")
    else Some("You know you want to say yes! 💗")
  }

  lemma CaptionShape(m: nat, n: nat)
    ensures Caption(m).None? <==> m == 0
    ensures 1 <= m <= 5 && 1 <= n <= 6 && m != n ==> Caption(m) != Caption(n)
    ensures m >= 6 && n >= 6 ==> Caption(m) == Caption(n)
  {
  }

  datatype Positioning = Relative | Fixed

  /** The No button leaves the page flow (fixed positioning) from the first dodge on. */
  function NoButtonPositioning(attempts: nat): (r: Positioning)
    ensures r == Fixed <==> attempts > 0
  {
    if attempts > 0 then Fixed else Relative
  }

  /** How the Yes request ended: `res.ok`, a non-OK status, or a thrown `fetch`. */
  datatype RequestOutcome = Ok | NotOk | Failed

  class InvitationPage {
    var submitted: bool
    var isSubmitting: bool
    var attempts: nat
    var yesButtonSize: int
    var noButtonSize: int

    /** The sizes are determined by the number of dodges. */
    ghost predicate Valid()
      reads this
    {
      yesButtonSize == YesSizeAfter(attempts) && noButtonSize == NoSizeAfter(attempts)
    }

    constructor ()
      ensures Valid()
      ensures !submitted && !isSubmitting && attempts == 0
      ensures yesButtonSize == INITIAL_SIZE && noButtonSize == INITIAL_SIZE
    {
      submitted := false;
      isSubmitting := false;
      attempts := 0;
      yesButtonSize := INITIAL_SIZE;
      noButtonSize := INITIAL_SIZE;
    }

    /** `handleNoHover`: one more attempt, Yes grows, No shrinks. */
    method NoHover()
      requires Valid()
      modifies this
      ensures Valid()
      ensures attempts == old(attempts) + 1
      ensures yesButtonSize == GrowYes(old(yesButtonSize)) && noButtonSize == ShrinkNo(old(noButtonSize))
      ensures old(yesButtonSize) <= yesButtonSize <= YES_MAX && NO_MIN <= noButtonSize <= old(noButtonSize)
      ensures submitted == old(submitted) && isSubmitting == old(isSubmitting)
    {
      StepAgrees(attempts);
      attempts := attempts + 1;
      yesButtonSize := GrowYes(yesButtonSize);
      noButtonSize := ShrinkNo(noButtonSize);
    }

    /** `handleNoClick`: the click is swallowed and counts as a hover. */
    method NoClick()
      requires Valid()
      modifies this
      ensures Valid()
      ensures attempts == old(attempts) + 1
      ensures yesButtonSize == GrowYes(old(yesButtonSize)) && noButtonSize == ShrinkNo(old(noButtonSize))
      ensures submitted == old(submitted) && isSubmitting == old(isSubmitting)
    {
      NoHover();
    }

    /** `handleYes` up to its `await`: ignored while a request is in flight,
        otherwise marks one as in flight and sends it. */
    method StartYes() returns (sent: bool)
      modifies this
      ensures sent == !old(isSubmitting)
      ensures isSubmitting
      ensures submitted == old(submitted) && attempts == old(attempts)
      ensures yesButtonSize == old(yesButtonSize) && noButtonSize == old(noButtonSize)
    {
      if isSubmitting {
        return false;
      }
      isSubmitting := true;
      sent := true;
    }

    /** `handleYes` after its `await`: only an OK response marks the invitation
        accepted; the `finally` clears the in-flight flag whatever happened. */
    method FinishYes(outcome: RequestOutcome)
      requires isSubmitting
      modifies this
      ensures !isSubmitting
      ensures submitted == (old(submitted) || outcome == Ok)
      ensures attempts == old(attempts)
      ensures yesButtonSize == old(yesButtonSize) && noButtonSize == old(noButtonSize)
    {
      if outcome == Ok {
        submitted := true;
      }
      isSubmitting := false;
    }
  }

  /** The body `handleYes` posts: answer `yes`, empty message, the ISO time. */
  function YesRequestBody(isoNow: string): (r: JsValue)
    ensures Destructurable(r)
    ensures Property(r, "answer") == Str("yes") && Property(r, "message") == Str("")
    ensures Property(r, "timestamp") == Str(isoNow)
    ensures r.Obj? && r.fields.Keys == {"answer", "message", "timestamp"}
  {
    Obj(map["answer" := Str("yes"), "message" := Str(""), "timestamp" := Str(isoNow)])
  }

  /** A click on Yes while its request is in flight sends nothing and changes
      nothing; once the request ends, the page accepts only on an OK reply. */
  method YesTwiceThenFinish(page: InvitationPage, outcome: RequestOutcome)
    returns (first: bool, second: bool)
    requires !page.isSubmitting && !page.submitted
    modifies page
    ensures first && !second
    ensures !page.isSubmitting && (page.submitted <==> outcome == Ok)
  {
    first := page.StartYes();
    second := page.StartYes();
    page.FinishYes(outcome);
  }
}
