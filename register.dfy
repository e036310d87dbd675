/** The registration page: the form state and `handleRegister`, which checks
    the form, sends it, and reports the outcome in a snackbar. */
module Register {
  import opened Wrappers
  import Text

  const EnterUserId: string := "Please enter a user ID"
  const CaptureImage: string := "Please capture a face image"
  const RegisterFailed: string := "Failed to register user. Please try again."

  datatype Severity = Success | Error
  datatype Snackbar = Snackbar(open: bool, message: string, severity: Severity)

  /** What the page sends through `registerUser`: the trimmed id, the display
      name and the captured data URL. */
  datatype Submission = Submission(userId: string, name: string, image: string)

  /** How `registerUser` settles: it resolves, or it throws either the
      server's response body (whose `error` field may be absent) or a bare
      message string, which has no `error` field at all. */
  datatype Outcome = Resolved | Thrown(error: Option<string>)

  /** JavaScript truthiness of a string that may be `null`. */
  predicate Truthy(s: Option<string>) {
    s.Some? && s.value != []
  }

  /** `name.trim() || userId.trim()`. */
  function DisplayName(name: string, userId: string): string {
    if Text.Trim(name) != [] then Text.Trim(name) else Text.Trim(userId)
  }

  /** The name sent is never blank once the id is not, and it carries no
      surrounding white space; a blank name falls back to the trimmed id. */
  lemma DisplayNameShape(name: string, userId: string)
    ensures Text.Trim(userId) != [] ==> DisplayName(name, userId) != []
    ensures var d := DisplayName(name, userId);
      d == [] || (!Text.IsSpace(d[0]) && !Text.IsSpace(d[|d| - 1]))
    ensures Text.Trim(name) == [] ==> DisplayName(name, userId) == Text.Trim(userId)
    ensures Text.Trim(name) != [] ==> DisplayName(name, userId) == Text.Trim(name)
  {
    Text.TrimShape(name);
    Text.TrimShape(userId);
  }

  /** `error.error || 'Failed to register user. Please try again.'`. */
  function FailureMessage(error: Option<string>): (r: string)
    ensures r != []
    ensures Truthy(error) ==> r == error.value
  {
    if Truthy(error) then error.value else RegisterFailed
  }

  function SuccessMessage(displayName: string): string {
    "User " + displayName + " registered successfully!"
  }

  /** The page's form state. */
  datatype Form = Form(userId: string, name: string, loading: bool, image: Option<string>, snackbar: Snackbar)

  /** The state `handleRegister` leaves behind, and what it sent, if anything;
      `register` stands for the `registerUser` request and how it settles. */
  function Submit(f: Form, register: Submission -> Outcome): (Form, Option<Submission>) {
    if Text.Trim(f.userId) == [] then
      (f.(snackbar := Snackbar(true, EnterUserId, Error)), None)
    else if !Truthy(f.image) then
      (f.(snackbar := Snackbar(true, CaptureImage, Error)), None)
    else
      var displayName := DisplayName(f.name, f.userId);
      var sent := Submission(Text.Trim(f.userId), displayName, f.image.value);
      var outcome := register(sent);
      if outcome.Resolved? then
        (Form([], [], false, None, Snackbar(true, SuccessMessage(displayName), Success)), Some(sent))
      else
        (f.(loading := false, snackbar := Snackbar(true, FailureMessage(outcome.error), Error)), Some(sent))
  }

  /** The guards, in order: a blank id is reported first, then a missing image;
      neither sends anything nor changes the form beyond the snackbar. */
  lemma SubmitGuards(f: Form, register: Submission -> Outcome)
    ensures Text.Trim(f.userId) == [] ==>
      Submit(f, register) == (f.(snackbar := Snackbar(true, EnterUserId, Error)), None)
    ensures Text.Trim(f.userId) != [] && !Truthy(f.image) ==>
      Submit(f, register) == (f.(snackbar := Snackbar(true, CaptureImage, Error)), None)
    ensures Submit(f, register).1.None? <==> Text.Trim(f.userId) == [] || !Truthy(f.image)
  {
  }

  /** What is sent: the trimmed id, the display name and the image; the
      snackbar then reports the outcome, success clears the form, failure
      keeps it, and loading is off either way. */
  lemma SubmitSends(f: Form, register: Submission -> Outcome)
    requires Text.Trim(f.userId) != [] && Truthy(f.image)
    ensures var (g, sent) := Submit(f, register);
      sent == Some(Submission(Text.Trim(f.userId), DisplayName(f.name, f.userId), f.image.value)) &&
      sent.value.userId != [] && sent.value.name != [] &&
      !g.loading &&
      (register(sent.value).Resolved? ==>
        g == Form([], [], false, None, Snackbar(true, SuccessMessage(sent.value.name), Success))) &&
      (register(sent.value).Thrown? ==>
        g.userId == f.userId && g.name == f.name && g.image == f.image &&
        g.snackbar == Snackbar(true, FailureMessage(register(sent.value).error), Error))
  {
    DisplayNameShape(f.name, f.userId);
  }

  class RegisterForm {
    var userId: string
    var name: string
    var loading: bool
    var image: Option<string>
    var snackbar: Snackbar

    function State(): Form
      reads this
    {
      Form(userId, name, loading, image, snackbar)
    }

    constructor ()
      ensures State() == Form([], [], false, None, Snackbar(false, [], Success))
    {
      userId := [];
      name := [];
      loading := false;
      image := None;
      snackbar := Snackbar(false, [], Success);
    }

    /** `handleCapture`: the webcam hands over a data URL. */
    method HandleCapture(imageSrc: Option<string>)
      modifies this`image
      ensures image == imageSrc
    {
      image := imageSrc;
    }

    /** `handleCloseSnackbar`: hide the snackbar, keeping its text. */
    method CloseSnackbar()
      modifies this`snackbar
      ensures snackbar == old(snackbar).(open := false)
    {
      snackbar := snackbar.(open := false);
    }

    /** `handleRegister`: early-return guards, then the request and the
        updates its outcome calls for. */
    method HandleRegister(register: Submission -> Outcome) returns (sent: Option<Submission>)
      modifies this
      ensures State() == Submit(old(State()), register).0
      ensures sent == Submit(old(State()), register).1
    {
      if Text.Trim(userId) == [] {
        snackbar := Snackbar(true, EnterUserId, Error);
        return None;
      }
      if !Truthy(image) {
        snackbar := Snackbar(true, CaptureImage, Error);
        return None;
      }
      loading := true;
      var displayName := DisplayName(name, userId);
      sent := Some(Submission(Text.Trim(userId), displayName, image.value));
      var outcome := register(sent.value);
      if outcome.Resolved? {
        snackbar := Snackbar(true, SuccessMessage(displayName), Success);
        userId := [];
        name := [];
        image := None;
      } else {
        snackbar := Snackbar(true, FailureMessage(outcome.error), Error);
      }
      loading := false;
    }
  }
}
