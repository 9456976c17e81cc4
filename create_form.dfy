/** The capsule form (src/app/capsule/create/page.tsx): the ordered checks of
    `handleSubmit`, the shared-address check, and the request body it sends to
    `POST /api/capsules/create`. */
module CreateForm {
  import opened Wrappers
  import opened Db
  import Text
  import Lists
  import Encryption
  import CapsuleCreate
  import opened Validation

  const Day: nat := 1000 * 60 * 60 * 24

  /** The form's fields. `unlockDate` is the text of the date input and
      `unlockInstant` what `new Date(unlockDate)` reads from it (`None` for an
      invalid date); `accessMode` is the selected option. */
  datatype Form = Form(
    title: string,
    description: string,
    language: string,
    code: string,
    note: string,
    unlockDate: string,
    unlockInstant: Option<int>,
    accessMode: AccessMode,
    passphrase: string,
    confirmPassphrase: string,
    passphraseHint: string,
    sharedEmails: string)

  /** `tomorrow`: the same clock time one day later. */
  function Tomorrow(now: int): int
  {
    now + Day
  }

  /** `min={minUnlockDate}`: the date part of `tomorrow.toISOString()`, which
      the date input reads back as 00:00 UTC of that date. */
  function EarliestOffered(now: int): (t: int)
    ensures t % Day == 0
    ensures t <= Tomorrow(now) < t + Day
  {
    (Tomorrow(now) / Day) * Day
  }

  /** `/^[^\s@]+@[^\s@]+\.[^\s@]+$/`: a non-empty local part, an `@`, then a
      non-empty part, a dot and a non-empty part, none of them holding
      white space or an `@`. */
  predicate EmailPattern(s: string)
  {
    exists i, j | 0 < i < j < |s| - 1 :: i + 1 < j && s[i] == '@' && s[j] == '.' && Plain(s, i, j)
  }

  /** No white space and no `@` outside position `i`, with `0 < i`. */
  predicate Plain(s: string, i: int, j: int)
  {
    forall k :: 0 <= k < |s| && k != i ==> !Text.IsSpace(s[k]) && s[k] != '@'
  }

  /** The same pattern read as a shape: no white space, exactly one `@`, not
      first, and a dot after it that is neither next to it nor last. */
  predicate EmailShape(s: string)
  {
    && (forall k :: 0 <= k < |s| ==> !Text.IsSpace(s[k]))
    && exists i :: 0 < i < |s| && s[i] == '@' && OnlyAt(s, i) && DotAfter(s, i)
  }

  predicate OnlyAt(s: string, i: int)
  {
    forall k :: 0 <= k < |s| && s[k] == '@' ==> k == i
  }

  predicate DotAfter(s: string, i: int)
  {
    exists j :: 0 <= i < j - 1 && j < |s| - 1 && s[j] == '.'
  }

  lemma EmailPatternIsShape(s: string)
    ensures EmailPattern(s) <==> EmailShape(s)
  {
    if EmailPattern(s) {
      var i, j :| 0 < i < j < |s| - 1 && i + 1 < j && s[i] == '@' && s[j] == '.' && Plain(s, i, j);
      assert DotAfter(s, i);
      assert OnlyAt(s, i);
    }
    if EmailShape(s) {
      var i :| 0 < i < |s| && s[i] == '@' && OnlyAt(s, i) && DotAfter(s, i);
      var j :| i + 1 < j < |s| - 1 && s[j] == '.';
      assert Plain(s, i, j);
    }
  }

  /** `sharedEmails.split(',').map(email => email.trim())`. */
  function Parts(s: string): (r: seq<string>)
    ensures |r| == |Text.Split(s, ',')| >= 1
    ensures forall k :: 0 <= k < |r| ==> r[k] == Text.Trim(Text.Split(s, ',')[k])
  {
    var pieces := Text.Split(s, ',');
    seq(|pieces|, k requires 0 <= k < |pieces| => Text.Trim(pieces[k]))
  }

  /** The errors `handleSubmit` sets, one per check; an address that does not
      fit the pattern is quoted in its error. */
  datatype Problem =
    | TitleRequired | TitleTooLong | DescriptionTooLong | DateRequired | DateTooEarly
    | PassphraseRequired | PassphraseTooShort | PassphraseMismatch | HintTooLong | NoteTooLong
    | InvalidEmail(address: string)

  /** The text the form shows for each error (lines 90-146). */
  function ErrorText(p: Problem): (t: string)
    ensures t != []
  {
    match p
      case TitleRequired => "Title is required"
      case TitleTooLong => "Title must be 100 characters or less"
      case DescriptionTooLong => "Description must be 500 characters or less"
      case DateRequired => "Unlock date is required"
      case DateTooEarly => "Unlock date must be at least tomorrow"
      case PassphraseRequired => "Passphrase is required to encrypt your capsule"
      case PassphraseTooShort => "Passphrase must be at least 8 characters long"
      case PassphraseMismatch => "Passphrases do not match"
      case HintTooLong => "Passphrase hint must be 100 characters or less"
      case NoteTooLong => "Note must be 2000 characters or less"
      case InvalidEmail(address) => "Invalid email format: " + address
  }

  /** The index of the first address that does not fit the pattern. */
  function FirstBad(emails: seq<string>, from: nat): (r: Option<nat>)
    requires from <= |emails|
    ensures r.None? <==> forall k :: from <= k < |emails| ==> EmailPattern(emails[k])
    ensures r.Some? ==>
      && from <= r.value < |emails|
      && !EmailPattern(emails[r.value])
      && forall k :: from <= k < r.value ==> EmailPattern(emails[k])
    decreases |emails| - from
  {
    if from == |emails| then None
    else if !EmailPattern(emails[from]) then Some(from)
    else FirstBad(emails, from + 1)
  }

  /** The address check of lines 140-150, run for SHARED with a non-empty input only. */
  function EmailCheck(f: Form): (r: Check<Problem>)
    ensures !r.ok <==>
      (&& f.accessMode == Shared && f.sharedEmails != []
       && exists k :: 0 <= k < |Parts(f.sharedEmails)| && !EmailPattern(Parts(f.sharedEmails)[k]))
    ensures !r.ok ==> r.error.InvalidEmail? && r.error.address in Parts(f.sharedEmails) && !EmailPattern(r.error.address)
  {
    if f.accessMode == Shared && f.sharedEmails != [] then
      var emails := Parts(f.sharedEmails);
      match FirstBad(emails, 0)
      case None => Check(true, InvalidEmail(""))
      case Some(k) => Check(false, InvalidEmail(emails[k]))
    else Check(true, InvalidEmail(""))
  }

  /** The checks of `handleSubmit`, in the order it runs them. */
  function Checks(f: Form, now: int): (cs: seq<Check<Problem>>)
    ensures |cs| == 11
  {
    [ Check(f.title != [], TitleRequired),
      Check(|f.title| <= 100, TitleTooLong),
      Check(!(f.description != [] && |f.description| > 500), DescriptionTooLong),
      Check(f.unlockDate != [], DateRequired),
      Check(!(f.unlockInstant.Some? && f.unlockInstant.value < Tomorrow(now)), DateTooEarly),
      Check(f.passphrase != [], PassphraseRequired),
      Check(|f.passphrase| >= 8, PassphraseTooShort),
      Check(f.passphrase == f.confirmPassphrase, PassphraseMismatch),
      Check(!(f.passphraseHint != [] && |f.passphraseHint| > 100), HintTooLong),
      Check(!(f.note != [] && |f.note| > 2000), NoteTooLong),
      EmailCheck(f) ]
  }

  datatype Language = Language(id: string, name: string)

  /** `LANGUAGES`: the editor's language ids and their display names. */
  const Languages: seq<Language> := [
    Language("javascript", "JavaScript"), Language("typescript", "TypeScript"),
    Language("python", "Python"), Language("java", "Java"), Language("cpp", "C++"),
    Language("csharp", "C#"), Language("go", "Go"), Language("rust", "Rust"),
    Language("html", "HTML"), Language("css", "CSS"), Language("sql", "SQL")]

  /** `LANGUAGE_MAP`. */
  const LanguageMap: map<string, string> := map[
    "javascript" := "JavaScript", "typescript" := "TypeScript", "python" := "Python",
    "java" := "Java", "cpp" := "C++", "csharp" := "C#", "go" := "Go", "rust" := "Rust",
    "html" := "HTML", "css" := "CSS", "sql" := "SQL"]

  /** `LANGUAGE_MAP[language] || language`. */
  function LanguageName(id: string): (name: string)
    ensures id !in LanguageMap ==> name == id
  {
    if id in LanguageMap && LanguageMap[id] != [] then LanguageMap[id] else id
  }

  /** The map gives every listed language its display name. */
  lemma LanguageMapMatchesList()
    ensures forall k :: 0 <= k < |Languages| ==> LanguageName(Languages[k].id) == Languages[k].name
  {
  }

  /** The `accessMode` string the form sends. */
  function ModeName(m: AccessMode): string
  {
    match m
    case Private => "PRIVATE"
    case Shared => "SHARED"
    case Public => "PUBLIC"
  }

  /** The server reads back the mode the form sends. */
  lemma ModeNameRoundTrip(m: AccessMode)
    ensures CapsuleCreate.ParseAccessMode(Some(ModeName(m))) == Some(m)
  {
  }

  /** `capsuleData`, sent once every check has passed; `unlock` is the chosen
      instant, which `toISOString()` carries to the server unchanged. */
  function Payload<J>(f: Form, unlock: int, c: Encryption.Cipher, j: Encryption.JsonCodec<J>): (b: CapsuleCreate.Body)
    ensures b.title == f.title && b.unlockDate == Some(unlock)
    ensures CapsuleCreate.ParseAccessMode(b.accessMode) == Some(f.accessMode)
    ensures b.sharedEmails == Some(if f.accessMode == Shared then Parts(f.sharedEmails) else [])
    ensures b.description == Some(f.description) && b.note == Some(f.note)
    ensures b.passHint == Some(f.passphraseHint) && b.language == Some(LanguageName(f.language))
    ensures Encryption.Lawful(c) ==> b.codeContent != []
  {
    ModeNameRoundTrip(f.accessMode);
    CapsuleCreate.Body(
      f.title, Some(f.description), Some(LanguageName(f.language)),
      Encryption.EncryptData(Encryption.Text(f.code), f.passphrase, c, j),
      Some(f.note), Some(ModeName(f.accessMode)), Some(f.passphraseHint), Some(unlock),
      Some(if f.accessMode == Shared then Parts(f.sharedEmails) else []))
  }

  /** What a submission does: set an error and send nothing, fail while
      building the request (an invalid date has no `toISOString()`), or send
      the request body. */
  datatype Outcome = Rejected(problem: Problem) | Failed(message: string) | Submitted(body: CapsuleCreate.Body)


  /** The loop of lines 144-149: the addresses in order, stopping at the first one that
      does not fit the pattern. */
  method ScanEmails(emails: seq<string>) returns (bad: Option<nat>)
    ensures bad == FirstBad(emails, 0)
  {
    var k := 0;
    while k < |emails|
      invariant 0 <= k <= |emails|
      invariant FirstBad(emails, k) == FirstBad(emails, 0)
    {
      if !EmailPattern(emails[k]) {
        return Some(k);
      }
      k := k + 1;
    }
    return None;
  }

  /** The checks of `handleSubmit` (lines 88-150), each in turn, stopping at the
      first that fails; the addresses are scanned one by one. */
  method Validate(f: Form, now: int) returns (problem: Option<Problem>)
    ensures problem == FirstFailure(Checks(f, now))
  {
    if f.title == [] {
      StopsAt(f, now, 0);
      return Some(TitleRequired);
    }
    if |f.title| > 100 {
      StopsAt(f, now, 1);
      return Some(TitleTooLong);
    }
    if f.description != [] && |f.description| > 500 {
      StopsAt(f, now, 2);
      return Some(DescriptionTooLong);
    }
    if f.unlockDate == [] {
      StopsAt(f, now, 3);
      return Some(DateRequired);
    }
    if f.unlockInstant.Some? && f.unlockInstant.value < Tomorrow(now) {
      StopsAt(f, now, 4);
      return Some(DateTooEarly);
    }
    if f.passphrase == [] {
      StopsAt(f, now, 5);
      return Some(PassphraseRequired);
    }
    if |f.passphrase| < 8 {
      StopsAt(f, now, 6);
      return Some(PassphraseTooShort);
    }
    if f.passphrase != f.confirmPassphrase {
      StopsAt(f, now, 7);
      return Some(PassphraseMismatch);
    }
    if f.passphraseHint != [] && |f.passphraseHint| > 100 {
      StopsAt(f, now, 8);
      return Some(HintTooLong);
    }
    if f.note != [] && |f.note| > 2000 {
      StopsAt(f, now, 9);
      return Some(NoteTooLong);
    }
    if f.accessMode == Shared && f.sharedEmails != [] {
      var emails := Parts(f.sharedEmails);
      var bad := ScanEmails(emails);
      if bad.Some? {
        StopsAt(f, now, 10);
        return Some(InvalidEmail(emails[bad.value]));
      }
    }
    PassesAll(f, now);
    return None;
  }

  /** The plain conditions under which the chain reaches check `k`, for `k`
      up to the address check: every earlier check passes. */
  predicate Reaches(f: Form, now: int, k: nat)
  {
    && (k > 0 ==> f.title != [])
    && (k > 1 ==> |f.title| <= 100)
    && (k > 2 ==> !(f.description != [] && |f.description| > 500))
    && (k > 3 ==> f.unlockDate != [])
    && (k > 4 ==> !(f.unlockInstant.Some? && f.unlockInstant.value < Tomorrow(now)))
    && (k > 5 ==> f.passphrase != [])
    && (k > 6 ==> |f.passphrase| >= 8)
    && (k > 7 ==> f.passphrase == f.confirmPassphrase)
    && (k > 8 ==> !(f.passphraseHint != [] && |f.passphraseHint| > 100))
    && (k > 9 ==> !(f.note != [] && |f.note| > 2000))
  }

  /** Reaching check `k`, the chain reports what check `k` and the ones after
      it report. */
  lemma {:induction false} ReachesFrom(f: Form, now: int, k: nat)
    requires k <= 10 && Reaches(f, now, k)
    ensures FirstFailure(Checks(f, now)) == FirstFailureFrom(Checks(f, now), k)
  {
    var cs := Checks(f, now);
    var i := 0;
    while i < k
      invariant 0 <= i <= k
      invariant FirstFailureFrom(cs, i) == FirstFailureFrom(cs, 0)
    {
      Pass(cs, i);
      i := i + 1;
    }
  }

  /** Each early `return` of `Validate`: the chain reaches check `k` and
      stops there. */
  lemma StopsAt(f: Form, now: int, k: nat)
    requires k <= 10 && Reaches(f, now, k) && !Checks(f, now)[k].ok
    ensures FirstFailure(Checks(f, now)) == Some(Checks(f, now)[k].error)
  {
    ReachesFrom(f, now, k);
  }

  /** The last `return` of `Validate`: every check passes. */
  lemma PassesAll(f: Form, now: int)
    requires Reaches(f, now, 10) && Checks(f, now)[10].ok
    ensures FirstFailure(Checks(f, now)) == None
  {
    ReachesFrom(f, now, 10);
    Pass(Checks(f, now), 10);
  }

  /** `handleSubmit` up to the request: the first failing check sets its
      error and sends nothing; otherwise the request body is built. */
  method HandleSubmit<J>(f: Form, now: int, c: Encryption.Cipher, j: Encryption.JsonCodec<J>) returns (outcome: Outcome)
    ensures FirstFailure(Checks(f, now)).Some? ==> outcome == Rejected(FirstFailure(Checks(f, now)).value)
    ensures FirstFailure(Checks(f, now)).None? && f.unlockInstant.None? ==> outcome == Failed("Invalid time value")
    ensures FirstFailure(Checks(f, now)).None? && f.unlockInstant.Some? ==>
      outcome == Submitted(Payload(f, f.unlockInstant.value, c, j))
  {
    var problem := Validate(f, now);
    if problem.Some? {
      return Rejected(problem.value);
    }
    if f.unlockInstant.None? {
      return Failed("Invalid time value");
    }
    outcome := Submitted(Payload(f, f.unlockInstant.value, c, j));
  }

  lemma EarliestOfferedRefused(f: Form, now: int)
    requires f.title != [] && |f.title| <= 100 && |f.description| <= 500 && f.unlockDate != []
    requires f.unlockInstant == Some(EarliestOffered(now))
    requires now % Day != 0
    ensures FirstFailure(Checks(f, now)) == Some(DateTooEarly)
  {
    assert (now + Day) / Day * Day == now + Day - (now + Day) % Day;
    assert (now + Day) % Day == now % Day;
    FirstFailureAt(Checks(f, now), 4);
  }

  /** What a form that passes every check holds, field by field. */
  lemma PassedChecks(f: Form, now: int)
    requires FirstFailure(Checks(f, now)).None?
    ensures 1 <= |f.title| <= 100 && |f.description| <= 500 && |f.passphraseHint| <= 100 && |f.note| <= 2000
    ensures f.unlockInstant.Some? ==> f.unlockInstant.value >= Tomorrow(now)
    ensures |f.passphrase| >= 8 && f.passphrase == f.confirmPassphrase
  {
    var cs := Checks(f, now);
    assert cs[0].ok && cs[1].ok && cs[2].ok && cs[4].ok && cs[6].ok && cs[7].ok && cs[8].ok && cs[9].ok;
  }

  /** A form the client lets through passes the server's schema too, given
      that each address is an email to the server and that the server's "start
      of tomorrow" lies within a day of `now`. */
  lemma ClientAcceptedServerAccepts<J>(f: Form, now: int, startOfTomorrow: int, c: Encryption.Cipher,
                                       j: Encryption.JsonCodec<J>, isEmail: string -> bool)
    requires FirstFailure(Checks(f, now)).None? && f.unlockInstant.Some?
    requires startOfTomorrow <= now + Day
    requires f.accessMode == Shared ==> forall k :: 0 <= k < |Parts(f.sharedEmails)| ==> isEmail(Parts(f.sharedEmails)[k])
    ensures CapsuleCreate.Validate(Payload(f, f.unlockInstant.value, c, j), startOfTomorrow, isEmail).Ok?
  {
    PassedChecks(f, now);
    WithinLimitsAccepted(f, f.unlockInstant.value, startOfTomorrow, c, j, isEmail);
  }

  /** The field limits the client checks, and an unlock instant no earlier than
      the server's start of tomorrow, make a body the server's schema accepts. */
  lemma WithinLimitsAccepted<J>(f: Form, unlock: int, startOfTomorrow: int, c: Encryption.Cipher,
                                j: Encryption.JsonCodec<J>, isEmail: string -> bool)
    requires 1 <= |f.title| <= 100 && |f.description| <= 500 && |f.passphraseHint| <= 100 && |f.note| <= 2000
    requires unlock >= startOfTomorrow
    requires f.accessMode == Shared ==> forall k :: 0 <= k < |Parts(f.sharedEmails)| ==> isEmail(Parts(f.sharedEmails)[k])
    ensures CapsuleCreate.Validate(Payload(f, unlock, c, j), startOfTomorrow, isEmail).Ok?
  {
    var b := Payload(f, unlock, c, j);
    assert CapsuleCreate.AtMost(b.description, 500) && CapsuleCreate.AtMost(b.note, 2000)
      && CapsuleCreate.AtMost(b.passHint, 100);
    assert CapsuleCreate.UnlockDateOk(b.unlockDate, startOfTomorrow);
    assert b.sharedEmails.Some? ==> forall k :: 0 <= k < |b.sharedEmails.value| ==> isEmail(b.sharedEmails.value[k]);
    assert CapsuleCreate.SchemaHolds(b, startOfTomorrow, isEmail);
  }

  /** SHARED with the address box left empty sends one empty address, which
      the server's email rule refuses. */
  lemma EmptySharedInputSendsBlank<J>(f: Form, unlock: int, startOfTomorrow: int, c: Encryption.Cipher,
                                      j: Encryption.JsonCodec<J>, isEmail: string -> bool)
    requires f.accessMode == Shared && f.sharedEmails == []
    requires !isEmail("")
    ensures EmailCheck(f).ok
    ensures Payload(f, unlock, c, j).sharedEmails == Some([""])
    ensures CapsuleCreate.InvalidEmail(0) in CapsuleCreate.Issues(Payload(f, unlock, c, j), startOfTomorrow, isEmail)
  {
    PartsOfEmpty();
    var b := Payload(f, unlock, c, j);
    assert b.sharedEmails == Some([""]);
    CapsuleCreate.EmailIssueReported(b, startOfTomorrow, isEmail, 0);
  }

  /** An empty address box splits into one empty part. */
  lemma PartsOfEmpty()
    ensures Parts("") == [""]
  {
    assert Text.Split("", ',') == [""];
    assert Text.Trim("") == "";
  }

  /** The body never carries the passphrase, only the envelope it seals, and
      that envelope opens with the passphrase to the code again. */
  lemma PayloadOpens<J>(f: Form, unlock: int, c: Encryption.Cipher, j: Encryption.JsonCodec<J>)
    requires Encryption.Lawful(c) && f.code != []
    ensures var s := Payload(f, unlock, c, j).codeContent;
      Encryption.DecryptData(s, f.passphrase, c, j)
        == if j.parse(f.code).Some? then Ok(Encryption.Parsed(j.parse(f.code).value)) else Ok(Encryption.Raw(f.code))
  {
    Encryption.TextRoundTrip(f.code, f.passphrase, c, j);
  }

  /** After the request: a refused request shows the server's message (the
      fallback text is never needed, every reply has one); `None` means the
      page moves on to the dashboard. */
  function AfterResponse(r: CapsuleCreate.Reply): (error: Option<string>)
    ensures error.None? <==> r.Created?
    ensures error.Some? ==> error.value == CapsuleCreate.Message(r)
  {
    var status := CapsuleCreate.Status(r);
    if 200 <= status < 300 then None
    else
      var m := CapsuleCreate.Message(r);
      Some(if m != [] then m else "Failed to create capsule")
  }
}
