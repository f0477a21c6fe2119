/** The landing page's own state (src/App.tsx): the mobile menu, the FAQ
    accordion, the contact form and its submission flag, with the handlers
    that change them. */
module LandingPage {
  import opened Optional

  /** The `name` attributes of the contact form's inputs. */
  datatype ContactField = Name | Email | Phone | Message

  datatype ContactForm = ContactForm(name: string, email: string, phone: string, message: string)

  /** `initialFormState`: every field empty. */
  const InitialForm := ContactForm("", "", "", "")

  datatype AppState = AppState(
    isMenuOpen: bool,
    activeFaq: Option<int>,
    form: ContactForm,
    isSubmitting: bool)

  const Initial := AppState(false, None, InitialForm, false)

  /** The FAQ item at `index` is expanded. */
  predicate IsFaqOpen(s: AppState, index: int) {
    s.activeFaq == Some(index)
  }

  /** `formValues[name]`. */
  function FieldValue(f: ContactForm, field: ContactField): string {
    match field
    case Name => f.name
    case Email => f.email
    case Phone => f.phone
    case Message => f.message
  }

  /** `toggleFaq(index)`: the clicked item opens unless it was the open one,
      in which case it closes; afterwards at most that one item is open,
      and nothing but the accordion changes. */
  function ToggleFaq(s: AppState, index: int): (r: AppState)
    ensures IsFaqOpen(r, index) <==> !IsFaqOpen(s, index)
    ensures forall k :: IsFaqOpen(r, k) ==> k == index
    ensures r.(activeFaq := s.activeFaq) == s
  {
    s.(activeFaq := if s.activeFaq == Some(index) then None else Some(index))
  }

  /** Clicking the same question twice restores the accordion exactly when
      no other question was open before; otherwise the second click leaves
      every item closed. */
  lemma ToggleFaqTwice(s: AppState, index: int)
    ensures ToggleFaq(ToggleFaq(s, index), index) == s <==>
      (s.activeFaq == None || s.activeFaq == Some(index))
    ensures ToggleFaq(ToggleFaq(s, index), index).activeFaq ==
      (if s.activeFaq == Some(index) then Some(index) else None)
  {
  }

  /** With question 0 open, clicking question 1 twice does not reopen 0. */
  lemma ToggleFaqTwiceForgetsOther()
    ensures ToggleFaq(ToggleFaq(Initial.(activeFaq := Some(0)), 1), 1).activeFaq == None
  {
  }

  /** The menu button: the menu flips between open and closed. */
  function ToggleMenu(s: AppState): (r: AppState)
    ensures r.isMenuOpen != s.isMenuOpen
    ensures r.(isMenuOpen := s.isMenuOpen) == s
  {
    s.(isMenuOpen := !s.isMenuOpen)
  }

  /** `handleNavClick`: whatever the menu's state, a navigation click
      leaves it closed; the scrolling it also does is not modelled. */
  function NavClick(s: AppState, sectionId: string): (r: AppState)
    ensures !r.isMenuOpen
    ensures r.(isMenuOpen := s.isMenuOpen) == s
  {
    s.(isMenuOpen := false)
  }

  /** `handleInputChange`: the named field takes the typed value and the
      other three fields, and the rest of the state, are unchanged. */
  function HandleInputChange(s: AppState, field: ContactField, value: string): (r: AppState)
    ensures FieldValue(r.form, field) == value
    ensures forall g :: g != field ==> FieldValue(r.form, g) == FieldValue(s.form, g)
    ensures r.(form := s.form) == s
  {
    var f := s.form;
    var form := match field
      case Name => f.(name := value)
      case Email => f.(email := value)
      case Phone => f.(phone := value)
      case Message => f.(message := value);
    s.(form := form)
  }

  /** The start of `handleSubmit`: the form is marked submitting and its
      current values are what is sent. */
  function BeginSubmit(s: AppState): (r: (AppState, ContactForm))
    ensures r.0.isSubmitting
    ensures r.1 == s.form
    ensures r.0.(isSubmitting := s.isSubmitting) == s
  {
    (s.(isSubmitting := true), s.form)
  }

  /** The end of `handleSubmit`: the submission flag drops whether or not
      sending worked; on success the form goes back to all-empty, on
      failure it keeps what was typed. */
  function FinishSubmit(s: AppState, succeeded: bool): (r: AppState)
    ensures !r.isSubmitting
    ensures succeeded ==> forall g :: FieldValue(r.form, g) == ""
    ensures !succeeded ==> r.form == s.form
    ensures r.isMenuOpen == s.isMenuOpen && r.activeFaq == s.activeFaq
  {
    var form := if succeeded then InitialForm else s.form;
    s.(form := form, isSubmitting := false)
  }

  /** The user actions and asynchronous completions the page reacts to. */
  datatype Event =
    | MenuButton
    | NavLink(sectionId: string)
    | FaqQuestion(index: int)
    | Edit(field: ContactField, value: string)
    | Submit
    | SubmitSucceeded
    | SubmitFailed

  function Step(s: AppState, e: Event): AppState {
    match e
    case MenuButton => ToggleMenu(s)
    case NavLink(id) => NavClick(s, id)
    case FaqQuestion(i) => ToggleFaq(s, i)
    case Edit(f, v) => HandleInputChange(s, f, v)
    case Submit => BeginSubmit(s).0
    case SubmitSucceeded => FinishSubmit(s, true)
    case SubmitFailed => FinishSubmit(s, false)
  }

  function Run(s: AppState, events: seq<Event>): AppState
    decreases |events|
  {
    if events == [] then s else Run(Step(s, events[0]), events[1..])
  }

  /** Only FAQ clicks move the accordion: a run of other events leaves the
      open item as it was. */
  lemma {:induction false} AccordionOnlyMovesOnFaqClicks(s: AppState, events: seq<Event>)
    requires forall i :: 0 <= i < |events| ==> !events[i].FaqQuestion?
    ensures Run(s, events).activeFaq == s.activeFaq
    decreases |events|
  {
    if events != [] {
      AccordionOnlyMovesOnFaqClicks(Step(s, events[0]), events[1..]);
    }
  }

  /** Only form edits and a successful submission touch the contact form. */
  lemma {:induction false} FormOnlyMovesOnEditsAndSuccess(s: AppState, events: seq<Event>)
    requires forall i :: 0 <= i < |events| ==> !events[i].Edit? && !events[i].SubmitSucceeded?
    ensures Run(s, events).form == s.form
    decreases |events|
  {
    if events != [] {
      FormOnlyMovesOnEditsAndSuccess(Step(s, events[0]), events[1..]);
    }
  }

  /** Once a submission has started, the flag stays raised through any
      events until the send settles: no click or edit drops it. */
  lemma {:induction false} SubmittingUntilSettled(s: AppState, events: seq<Event>)
    requires forall i :: 0 <= i < |events| ==> !events[i].SubmitSucceeded? && !events[i].SubmitFailed?
    ensures Run(s, [Submit] + events).isSubmitting
  {
    assert ([Submit] + events)[1..] == events;
    StaysSubmitting(BeginSubmit(s).0, events);
  }

  /** A raised submission flag survives every event other than the send
      settling. */
  lemma {:induction false} StaysSubmitting(s: AppState, events: seq<Event>)
    requires s.isSubmitting
    requires forall i :: 0 <= i < |events| ==> !events[i].SubmitSucceeded? && !events[i].SubmitFailed?
    ensures Run(s, events).isSubmitting
    decreases |events|
  {
    if events != [] {
      StaysSubmitting(Step(s, events[0]), events[1..]);
    }
  }

  /** However the page was used, once the last submission has settled the
      form is no longer submitting, and a final navigation click leaves the
      menu closed. */
  lemma {:induction false} RunEndsWith(s: AppState, events: seq<Event>, last: Event)
    ensures last.SubmitSucceeded? || last.SubmitFailed? ==> !Run(s, events + [last]).isSubmitting
    ensures last.NavLink? ==> !Run(s, events + [last]).isMenuOpen
    decreases |events|
  {
    if events == [] {
      assert events + [last] == [last];
    } else {
      assert (events + [last])[1..] == events[1..] + [last];
      RunEndsWith(Step(s, events[0]), events[1..], last);
    }
  }
}
