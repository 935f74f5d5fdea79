/**
 * The request schemas, each as a parse function from a typed input record to
 * either the parsed value (with defaults filled in) or the list of issues.
 * Format checks the schema library performs (e-mail, URL, UUID) and date
 * parsing are function parameters; `now` is the clock reading in milliseconds.
 */
module ZodSchemas {
  import opened Wrappers
  import opened Text
  import EventTypes

  /** One validation issue: the field it is attached to and the custom message, if the schema gives one. */
  datatype Issue = Issue(path: string, message: Option<string>)

  type Issues = seq<Issue>

  function Check(ok: bool, path: string, message: Option<string>): (r: Issues)
    ensures ok <==> r == []
    ensures forall i :: i in r ==> i.path == path
  {
    if ok then [] else [Issue(path, message)]
  }

  predicate HasIssueAt(issues: Issues, path: string) {
    exists i :: i in issues && i.path == path
  }

  lemma IssuesAppend(a: Issues, b: Issues, path: string)
    ensures HasIssueAt(a + b, path) <==> HasIssueAt(a, path) || HasIssueAt(b, path)
    ensures a + b == [] <==> a == [] && b == []
  {
    if HasIssueAt(a + b, path) {
      var i :| i in a + b && i.path == path;
      assert i in a || i in b;
    }
  }

  /** A string length check `.min(lo).max(hi)`, reporting the bound that failed. */
  function LengthCheck(s: string, lo: nat, hi: nat, path: string, tooShort: string, tooLong: string): (r: Issues)
    ensures r == [] <==> lo <= |s| <= hi
    ensures forall i :: i in r ==> i.path == path
  {
    if |s| < lo then [Issue(path, Some(tooShort))]
    else if |s| > hi then [Issue(path, Some(tooLong))]
    else []
  }

  /** Every element passes the element check (`z.array(z.url())`). */
  predicate AllSatisfy(xs: seq<string>, p: string -> bool) {
    forall i :: 0 <= i < |xs| ==> p(xs[i])
  }

  // ---------------------------------------------------------------------------
  // createEventSchema
  // ---------------------------------------------------------------------------

  datatype CreateEventInput = CreateEventInput(
    title: string,
    description: Option<string>,
    location: Option<string>,
    eventDate: string,
    imageUrl: Option<seq<string>>)

  datatype CreateEvent = CreateEvent(
    title: string,
    description: Option<string>,
    location: Option<string>,
    eventDate: int,
    imageUrl: seq<string>)

  predicate OptionalMaxLength(s: Option<string>, hi: nat) {
    s.None? || |s.value| <= hi
  }

  /** The event date parses (`parseDate` gives the instant, or None for an invalid date) and lies strictly after `now`. */
  predicate InFuture(eventDate: string, now: int, parseDate: string -> Option<int>) {
    parseDate(eventDate).Some? && parseDate(eventDate).value > now
  }

  function ParseCreateEvent(input: CreateEventInput, now: int, parseDate: string -> Option<int>,
                            isUrl: string -> bool): (r: Result<CreateEvent, Issues>)
    ensures r.Success? <==>
      && 1 <= |input.title| <= 100
      && OptionalMaxLength(input.description, 1000)
      && OptionalMaxLength(input.location, 200)
      && InFuture(input.eventDate, now, parseDate)
      && (input.imageUrl.Some? ==> |input.imageUrl.value| <= 1 && AllSatisfy(input.imageUrl.value, isUrl))
    ensures r.Success? ==>
      && r.value.title == input.title
      && r.value.description == input.description
      && r.value.location == input.location
      && r.value.eventDate == parseDate(input.eventDate).value
      && r.value.imageUrl == (if input.imageUrl.Some? then input.imageUrl.value else [])
    ensures r.Failure? ==>
      && (HasIssueAt(r.error, "title") <==> !(1 <= |input.title| <= 100))
      && (HasIssueAt(r.error, "event_date") <==> !InFuture(input.eventDate, now, parseDate))
  {
    var images := if input.imageUrl.Some? then input.imageUrl.value else [];
    var title := LengthCheck(input.title, 1, 100, "title", "Title is required",
                             "Title must be less than 100 characters");
    var description := Check(OptionalMaxLength(input.description, 1000), "description",
                             Some("Description must be less than 1000 characters"));
    var location := Check(OptionalMaxLength(input.location, 200), "location",
                          Some("Location must be less than 200 characters"));
    var date := Check(InFuture(input.eventDate, now, parseDate), "event_date",
                      Some("Event date must be in the future"));
    var image := Check(AllSatisfy(images, isUrl), "image_url", None)
                 + Check(|images| <= 1, "image_url", Some("Only 1 image allowed"));
    CreateEventIssues(title, description, location, date, image);
    var issues := title + (description + location + date + image);
    if issues == [] then
      Success(CreateEvent(input.title, input.description, input.location,
                          parseDate(input.eventDate).value, images))
    else Failure(issues)
  }

  /** Where the issues of the create-event schema land. */
  lemma CreateEventIssues(title: Issues, description: Issues, location: Issues, date: Issues, image: Issues)
    requires forall i :: i in title ==> i.path == "title"
    requires forall i :: i in description ==> i.path == "description"
    requires forall i :: i in location ==> i.path == "location"
    requires forall i :: i in date ==> i.path == "event_date"
    requires forall i :: i in image ==> i.path == "image_url"
    ensures var all := title + (description + location + date + image);
      && (all == [] <==> title == [] && description == [] && location == [] && date == [] && image == [])
      && (HasIssueAt(all, "title") <==> title != [])
      && (HasIssueAt(all, "event_date") <==> date != [])
  {
    var rest := description + location + date + image;
    IssuesAppend(title, rest, "title");
    IssuesAppend(title, rest, "event_date");
    assert !HasIssueAt(title, "event_date");
    assert HasIssueAt(title, "title") <==> title != [] by {
      if title != [] { assert title[0] in title; }
    }
    assert !HasIssueAt(rest, "title") by {
      forall i | i in rest ensures i.path != "title" {
        assert i in description || i in location || i in date || i in image;
      }
    }
    assert HasIssueAt(rest, "event_date") <==> date != [] by {
      if date != [] { assert date[0] in rest; }
      forall i | i in rest && i.path == "event_date" ensures i in date {
        assert i in description || i in location || i in date || i in image;
      }
    }
  }

  // ---------------------------------------------------------------------------
  // joinEventSchema, createReviewSchema, updateEventStatusSchema
  // ---------------------------------------------------------------------------

  function ParseJoinEvent(eventId: string, isUuid: string -> bool): (r: Result<string, Issues>)
    ensures r.Success? <==> isUuid(eventId)
    ensures r.Success? ==> r.value == eventId
    ensures r.Failure? ==> r.error == [Issue("event_id", Some("Invalid event ID"))]
  {
    if isUuid(eventId) then Success(eventId) else Failure([Issue("event_id", Some("Invalid event ID"))])
  }

  datatype CreateReviewInput = CreateReviewInput(eventId: string, content: string, photoUrls: Option<seq<string>>)

  datatype CreateReview = CreateReview(eventId: string, content: string, photoUrls: seq<string>)

  function ParseCreateReview(input: CreateReviewInput, isUuid: string -> bool, isUrl: string -> bool)
    : (r: Result<CreateReview, Issues>)
    ensures r.Success? <==>
      && isUuid(input.eventId)
      && 1 <= |input.content| <= 1000
      && (input.photoUrls.Some? ==> AllSatisfy(input.photoUrls.value, isUrl))
    ensures r.Success? ==>
      r.value == CreateReview(input.eventId, input.content,
                              if input.photoUrls.Some? then input.photoUrls.value else [])
  {
    var photos := if input.photoUrls.Some? then input.photoUrls.value else [];
    var issues :=
      Check(isUuid(input.eventId), "event_id", Some("Invalid event ID"))
      + LengthCheck(input.content, 1, 1000, "content", "Review content is required",
                    "Review must be less than 1000 characters")
      + Check(AllSatisfy(photos, isUrl), "photo_urls", None);
    if issues == [] then Success(CreateReview(input.eventId, input.content, photos)) else Failure(issues)
  }

  function ParseUpdateEventStatus(status: string): (r: Result<EventTypes.Status, Issues>)
    ensures r.Success? <==> status in {"upcoming", "started", "finished"}
    ensures r.Success? ==> EventTypes.Name(r.value) == status
    ensures r.Failure? ==> HasIssueAt(r.error, "status")
  {
    EventTypes.ParseStatusRoundTrip(EventTypes.Upcoming, status);
    match EventTypes.ParseStatus(status)
    case Some(s) => Success(s)
    case None => Failure([Issue("status", None)])
  }

  // ---------------------------------------------------------------------------
  // eventFiltersSchema
  // ---------------------------------------------------------------------------

  datatype EventFiltersInput = EventFiltersInput(
    dateRange: Option<string>, category: Option<string>, limit: Option<real>, offset: Option<real>)

  datatype EventFilters = EventFilters(dateRange: string, category: Option<string>, limit: real, offset: real)

  const DateRanges: set<string> := {"today", "week", "all", "past"}

  function ParseEventFilters(input: EventFiltersInput): (r: Result<EventFilters, Issues>)
    ensures r.Success? <==>
      && (input.dateRange.Some? ==> input.dateRange.value in DateRanges)
      && (input.limit.Some? ==> 1.0 <= input.limit.value <= 50.0)
      && (input.offset.Some? ==> input.offset.value >= 0.0)
    ensures r.Success? ==>
      && r.value.dateRange in DateRanges
      && 1.0 <= r.value.limit <= 50.0 && r.value.offset >= 0.0
      && r.value.dateRange == (if input.dateRange.Some? then input.dateRange.value else "all")
      && r.value.category == input.category
      && r.value.limit == (if input.limit.Some? then input.limit.value else 20.0)
      && r.value.offset == (if input.offset.Some? then input.offset.value else 0.0)
  {
    var dateRange := if input.dateRange.Some? then input.dateRange.value else "all";
    var limit := if input.limit.Some? then input.limit.value else 20.0;
    var offset := if input.offset.Some? then input.offset.value else 0.0;
    var issues :=
      Check(dateRange in DateRanges, "date_range", None)
      + Check(1.0 <= limit, "limit", None)
      + Check(limit <= 50.0, "limit", None)
      + Check(offset >= 0.0, "offset", None);
    if issues == [] then Success(EventFilters(dateRange, input.category, limit, offset)) else Failure(issues)
  }

  // ---------------------------------------------------------------------------
  // uploadUrlSchema
  // ---------------------------------------------------------------------------

  datatype UploadUrlInput = UploadUrlInput(fileName: string, fileType: string, fileSize: real)

  const ImageMimeTypes: set<string> := {"image/jpeg", "image/jpg", "image/png", "image/gif", "image/webp"}

  const MaxUploadBytes: real := (5 * 1024 * 1024) as real

  function ParseUploadUrl(input: UploadUrlInput): (r: Result<UploadUrlInput, Issues>)
    ensures r.Success? <==>
      |input.fileName| >= 1 && input.fileType in ImageMimeTypes && input.fileSize <= 5242880.0
    ensures r.Success? ==> r.value == input
    ensures r.Failure? ==>
      && (HasIssueAt(r.error, "file_name") <==> input.fileName == "")
      && (HasIssueAt(r.error, "file_type") <==> input.fileType !in ImageMimeTypes)
      && (HasIssueAt(r.error, "file_size") <==> input.fileSize > 5242880.0)
  {
    var issues :=
      Check(|input.fileName| >= 1, "file_name", Some("File name is required"))
      + Check(input.fileType in ImageMimeTypes, "file_type", None)
      + Check(input.fileSize <= MaxUploadBytes, "file_size", Some("File size must be less than 5MB"));
    if issues == [] then Success(input) else Failure(issues)
  }

  // ---------------------------------------------------------------------------
  // Authentication schemas
  // ---------------------------------------------------------------------------

  const KaistSuffix: string := "@kaist.ac.kr"

  /** The e-mail field of sign-up and sign-in: well-formed, and on the campus domain. */
  function KaistEmailCheck(email: string, isEmail: string -> bool): (r: Issues)
    ensures r == [] <==> isEmail(email) && EndsWith(email, KaistSuffix)
    ensures forall i :: i in r ==> i.path == "email"
  {
    Check(isEmail(email), "email", Some("Invalid email format"))
    + Check(EndsWith(email, KaistSuffix), "email", Some("Only KAIST email addresses are allowed"))
  }

  datatype SignUpInput = SignUpInput(email: string, name: string, password: string, confirmPassword: string)

  const PasswordMismatch: Issue := Issue("confirmPassword", Some("Passwords don't match"))

  function ParseSignUp(input: SignUpInput, isEmail: string -> bool): (r: Result<SignUpInput, Issues>)
    ensures r.Success? <==>
      && isEmail(input.email) && EndsWith(input.email, KaistSuffix)
      && 1 <= |input.name| <= 100
      && 8 <= |input.password| <= 100
      && input.password == input.confirmPassword
    ensures r.Success? ==> r.value == input
    ensures r.Failure? ==>
      && (PasswordMismatch in r.error <==> input.password != input.confirmPassword)
      && (HasIssueAt(r.error, "confirmPassword") <==> input.password != input.confirmPassword)
      && (HasIssueAt(r.error, "password") <==> !(8 <= |input.password| <= 100))
  {
    var email := KaistEmailCheck(input.email, isEmail);
    var name := LengthCheck(input.name, 1, 100, "name", "Name is required",
                            "Name must be less than 100 characters");
    var password := LengthCheck(input.password, 8, 100, "password", "Password must be at least 8 characters",
                                "Password must be less than 100 characters");
    var confirm: Issues := if input.password == input.confirmPassword then [] else [PasswordMismatch];
    SignUpIssues(email, name, password, confirm);
    var issues := email + name + password + confirm;
    if issues == [] then Success(input) else Failure(issues)
  }

  /** Where the issues of the sign-up schema land: the mismatch only ever on `confirmPassword`. */
  lemma SignUpIssues(email: Issues, name: Issues, password: Issues, confirm: Issues)
    requires forall i :: i in email ==> i.path == "email"
    requires forall i :: i in name ==> i.path == "name"
    requires forall i :: i in password ==> i.path == "password"
    requires confirm == [] || confirm == [PasswordMismatch]
    ensures var all := email + name + password + confirm;
      && (all == [] <==> email == [] && name == [] && password == [] && confirm == [])
      && (PasswordMismatch in all <==> confirm != [])
      && (HasIssueAt(all, "confirmPassword") <==> confirm != [])
      && (HasIssueAt(all, "password") <==> password != [])
  {
    var all := email + name + password + confirm;
    forall i | i in all
      ensures i in email || i in name || i in password || i in confirm
    {
    }
    if confirm != [] {
      assert PasswordMismatch in all;
    }
    if password != [] {
      assert password[0] in all;
    }
  }

  datatype VerifyOtpInput = VerifyOtpInput(email: string, token: string)

  function ParseVerifyOtp(input: VerifyOtpInput, isEmail: string -> bool): (r: Result<VerifyOtpInput, Issues>)
    ensures r.Success? <==> isEmail(input.email) && |input.token| == 6
    ensures r.Success? ==> r.value == input
    ensures r.Failure? ==> (HasIssueAt(r.error, "token") <==> |input.token| != 6)
  {
    var issues :=
      Check(isEmail(input.email), "email", Some("Invalid email format"))
      + LengthCheck(input.token, 6, 6, "token", "OTP must be 6 digits", "OTP must be 6 digits");
    if issues == [] then Success(input) else Failure(issues)
  }

  datatype SignInInput = SignInInput(email: string, password: Option<string>, loginMethod: Option<string>)

  datatype SignIn = SignIn(email: string, password: Option<string>, loginMethod: string)

  const LoginMethods: set<string> := {"password", "magic_link"}

  function ParseSignIn(input: SignInInput, isEmail: string -> bool): (r: Result<SignIn, Issues>)
    ensures r.Success? <==>
      && isEmail(input.email) && EndsWith(input.email, KaistSuffix)
      && (input.loginMethod.Some? ==> input.loginMethod.value in LoginMethods)
    ensures r.Success? ==>
      && r.value.email == input.email && r.value.password == input.password
      && r.value.loginMethod in LoginMethods
      && r.value.loginMethod == (if input.loginMethod.Some? then input.loginMethod.value else "password")
  {
    var method_ := if input.loginMethod.Some? then input.loginMethod.value else "password";
    var issues :=
      KaistEmailCheck(input.email, isEmail)
      + Check(method_ in LoginMethods, "loginMethod", None);
    if issues == [] then Success(SignIn(input.email, input.password, method_)) else Failure(issues)
  }

  function ParseResendOtp(email: string, isEmail: string -> bool): (r: Result<string, Issues>)
    ensures r.Success? <==> isEmail(email)
    ensures r.Success? ==> r.value == email
  {
    if isEmail(email) then Success(email) else Failure([Issue("email", Some("Invalid email format"))])
  }
}
