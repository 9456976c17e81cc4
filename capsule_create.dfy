/** `POST /api/capsules/create` (src/app/api/capsules/create/route.ts): the
    `capsuleSchema` validator and the create-plus-share-grant sequence. */
module CapsuleCreate {
  import opened Wrappers
  import opened Db
  import Encryption

  /** The request body. `unlockDate` is the instant `new Date(date)` reads
      from the submitted string, `None` when that string is not a date. */
  datatype Body = Body(
    title: string,
    description: Option<string>,
    language: Option<string>,
    codeContent: string,
    note: Option<string>,
    accessMode: Option<string>,
    passHint: Option<string>,
    unlockDate: Option<int>,
    sharedEmails: Option<seq<string>>)

  /** One schema violation, in the order the schema lists its fields. */
  datatype Issue =
    | TitleTooShort | TitleTooLong | DescriptionTooLong | NoteTooLong
    | InvalidAccessMode | PassHintTooLong | UnlockDateTooEarly | InvalidEmail(index: nat)

  /** The body after a successful parse, defaults filled in. */
  datatype Parsed = Parsed(
    title: string,
    description: Option<string>,
    language: Option<string>,
    codeContent: string,
    note: Option<string>,
    accessMode: AccessMode,
    passHint: Option<string>,
    unlockDate: int,
    sharedEmails: seq<string>)

  /** `z.enum(["PRIVATE", "SHARED", "PUBLIC"]).default("PRIVATE")`; `None` when invalid. */
  function ParseAccessMode(m: Option<string>): (r: Option<AccessMode>)
    ensures m.None? ==> r == Some(Private)
    ensures r.None? <==> m.Some? && m.value !in {"PRIVATE", "SHARED", "PUBLIC"}
  {
    match m
    case None => Some(Private)
    case Some(s) =>
      if s == "PRIVATE" then Some(Private)
      else if s == "SHARED" then Some(Shared)
      else if s == "PUBLIC" then Some(Public)
      else None
  }

  /** `.max(n).nullable().optional()`. */
  predicate AtMost(s: Option<string>, n: nat)
  {
    s.None? || |s.value| <= n
  }

  /** The `refine` on `unlockDate`: no earlier than local midnight at the start
      of tomorrow. An invalid date compares false, so it is refused too. */
  predicate UnlockDateOk(unlockDate: Option<int>, startOfTomorrow: int)
  {
    unlockDate.Some? && unlockDate.value >= startOfTomorrow
  }

  /** `z.array(z.string().email())`: one issue per address that is not an email, from index `i` on. */
  function EmailIssues(emails: seq<string>, isEmail: string -> bool, i: nat): (r: seq<Issue>)
    requires i <= |emails|
    ensures r == [] <==> forall k :: i <= k < |emails| ==> isEmail(emails[k])
    ensures forall k :: 0 <= k < |r| ==> r[k].InvalidEmail? && i <= r[k].index < |emails| && !isEmail(emails[r[k].index])
    decreases |emails| - i
  {
    if i == |emails| then []
    else (if isEmail(emails[i]) then [] else [InvalidEmail(i)]) + EmailIssues(emails, isEmail, i + 1)
  }

  /** The schema's field rules, stated as one condition. */
  predicate SchemaHolds(b: Body, startOfTomorrow: int, isEmail: string -> bool)
  {
    && 1 <= |b.title| <= 100
    && AtMost(b.description, 500)
    && AtMost(b.note, 2000)
    && ParseAccessMode(b.accessMode).Some?
    && AtMost(b.passHint, 100)
    && UnlockDateOk(b.unlockDate, startOfTomorrow)
    && (b.sharedEmails.Some? ==> forall k :: 0 <= k < |b.sharedEmails.value| ==> isEmail(b.sharedEmails.value[k]))
  }

  /** Every violation of `capsuleSchema`, in field order. */
  function Issues(b: Body, startOfTomorrow: int, isEmail: string -> bool): (r: seq<Issue>)
    ensures r == [] <==> SchemaHolds(b, startOfTomorrow, isEmail)
  {
    (if |b.title| < 1 then [TitleTooShort] else [])
    + (if |b.title| > 100 then [TitleTooLong] else [])
    + (if !AtMost(b.description, 500) then [DescriptionTooLong] else [])
    + (if !AtMost(b.note, 2000) then [NoteTooLong] else [])
    + (if ParseAccessMode(b.accessMode).None? then [InvalidAccessMode] else [])
    + (if !AtMost(b.passHint, 100) then [PassHintTooLong] else [])
    + (if !UnlockDateOk(b.unlockDate, startOfTomorrow) then [UnlockDateTooEarly] else [])
    + (match b.sharedEmails case None => [] case Some(es) => EmailIssues(es, isEmail, 0))
  }

  lemma {:induction false} EmailIssuesHas(emails: seq<string>, isEmail: string -> bool, i: nat, k: nat)
    requires i <= k < |emails| && !isEmail(emails[k])
    ensures InvalidEmail(k) in EmailIssues(emails, isEmail, i)
    decreases |emails| - i
  {
    if i < k {
      EmailIssuesHas(emails, isEmail, i + 1, k);
    }
  }

  /** Every address the email rule refuses is reported, by its index. */
  lemma EmailIssueReported(b: Body, startOfTomorrow: int, isEmail: string -> bool, k: nat)
    requires b.sharedEmails.Some? && k < |b.sharedEmails.value| && !isEmail(b.sharedEmails.value[k])
    ensures InvalidEmail(k) in Issues(b, startOfTomorrow, isEmail)
  {
    var tail := EmailIssues(b.sharedEmails.value, isEmail, 0);
    EmailIssuesHas(b.sharedEmails.value, isEmail, 0, k);
    var issues := Issues(b, startOfTomorrow, isEmail);
    var head := issues[..|issues| - |tail|];
    assert issues == head + tail;
  }

  /** `capsuleSchema.safeParse(body)`. */
  function Validate(b: Body, startOfTomorrow: int, isEmail: string -> bool): (r: Result<Parsed, seq<Issue>>)
    ensures r.Ok? <==> SchemaHolds(b, startOfTomorrow, isEmail)
    ensures r.Err? ==> r.error != [] && r.error == Issues(b, startOfTomorrow, isEmail)
    ensures r.Ok? ==>
      && r.value.title == b.title && r.value.description == b.description
      && r.value.language == b.language && r.value.codeContent == b.codeContent
      && r.value.note == b.note && r.value.passHint == b.passHint
      && Some(r.value.accessMode) == ParseAccessMode(b.accessMode)
      && Some(r.value.unlockDate) == b.unlockDate && r.value.unlockDate >= startOfTomorrow
      && r.value.sharedEmails == (if b.sharedEmails.Some? then b.sharedEmails.value else [])
  {
    var issues := Issues(b, startOfTomorrow, isEmail);
    if issues != [] then Err(issues)
    else
      Ok(Parsed(b.title, b.description, b.language, b.codeContent, b.note,
                ParseAccessMode(b.accessMode).value, b.passHint, b.unlockDate.value,
                match b.sharedEmails case None => [] case Some(es) => es))
  }

  /** The unlock-date rule at its edge: any instant of today is refused and
      tomorrow at 00:00 is accepted. */
  lemma UnlockDateEdge(b: Body, startOfTomorrow: int, isEmail: string -> bool)
    ensures b.unlockDate.Some? && b.unlockDate.value < startOfTomorrow ==>
      UnlockDateTooEarly in Issues(b, startOfTomorrow, isEmail)
    ensures b.unlockDate == Some(startOfTomorrow) ==>
      UnlockDateTooEarly !in Issues(b, startOfTomorrow, isEmail)
  {
    var es := match b.sharedEmails case None => [] case Some(es) => EmailIssues(es, isEmail, 0);
    assert UnlockDateTooEarly !in es;
  }

  /** The share grants of lines 87-95: for SHARED only, one per address; a
      repeated address gives one grant. */
  function Grants(capsuleId: nat, mode: AccessMode, emails: seq<string>): (r: set<Share>)
    ensures forall g :: g in r ==> g.capsuleId == capsuleId && g.email in emails && mode == Shared
    ensures mode == Shared ==> forall e :: e in emails ==> Share(capsuleId, e) in r
  {
    if mode == Shared && |emails| > 0 then set e | e in emails :: Share(capsuleId, e) else {}
  }

  /** Two requests for the same address make one grant. */
  lemma DuplicateGrantsCollapse(capsuleId: nat, e: string)
    ensures Grants(capsuleId, Shared, [e, e]) == {Share(capsuleId, e)}
  {
  }

  /** The row of lines 77-84: the payload is the server-wrapped `codeContent`,
      the owner is the session user, and the flags start false. */
  function NewCapsule(id: nat, uid: string, p: Parsed, wrapped: string, now: int): (c: Capsule)
    ensures c.id == id && c.userId == uid && c.codeContent == wrapped
    ensures !c.isUnlocked && !c.isDeleted && c.createdAt == now
    ensures c.unlockDate == p.unlockDate && c.accessMode == p.accessMode
  {
    Capsule(id, uid, p.title, p.description, p.language, wrapped, p.note, p.accessMode,
            p.passHint, p.unlockDate, false, false, now, now)
  }

  /** The reply of the handler. */
  datatype Reply = Unauthorized | ValidationFailed(issues: seq<Issue>) | Created(capsuleId: nat) | ServerError

  function Status(r: Reply): int
  {
    match r
    case Unauthorized => 401
    case ValidationFailed(_) => 400
    case Created(_) => 201
    case ServerError => 500
  }

  /** The `message` of each reply's body. */
  function Message(r: Reply): (m: string)
    ensures m != []
  {
    match r
    case Unauthorized => "Unauthorized"
    case ValidationFailed(_) => "Validation failed"
    case Created(_) => "Capsule created successfully"
    case ServerError => "Internal server error"
  }

  /** The handler: sign-in check, validation, server wrapping, insert, grants. */
  method Post(store: Store, session: Option<string>, body: Body, startOfTomorrow: int, now: int,
              secret: Option<string>, cipher: Encryption.Cipher, isEmail: string -> bool)
    returns (reply: Reply)
    requires store.Valid()
    modifies store
    ensures store.Valid()
    ensures store.users == old(store.users) && store.comments == old(store.comments)
    ensures !SignedIn(session) ==> reply == Unauthorized
    ensures SignedIn(session) && Validate(body, startOfTomorrow, isEmail).Err? ==>
      reply == ValidationFailed(Validate(body, startOfTomorrow, isEmail).error)
    ensures SignedIn(session) && Validate(body, startOfTomorrow, isEmail).Ok? && !Encryption.Configured(secret) ==>
      reply == ServerError
    ensures !reply.Created? ==> store.capsules == old(store.capsules) && store.shares == old(store.shares)
    ensures reply.Created? ==>
      && SignedIn(session) && Validate(body, startOfTomorrow, isEmail).Ok? && Encryption.Configured(secret)
      && var p := Validate(body, startOfTomorrow, isEmail).value;
      && var id := old(|store.capsules|);
      && reply == Created(id)
      && store.capsules == old(store.capsules)
           + [NewCapsule(id, session.value, p, Encryption.ServerEncrypt(p.codeContent, secret, cipher).value, now)]
      && store.shares == old(store.shares) + Grants(id, p.accessMode, p.sharedEmails)
    ensures SignedIn(session) && Validate(body, startOfTomorrow, isEmail).Ok? && Encryption.Configured(secret) ==>
      reply.Created?
  {
    if !SignedIn(session) {
      return Unauthorized;
    }
    var v := Validate(body, startOfTomorrow, isEmail);
    if v.Err? {
      return ValidationFailed(v.error);
    }
    var p := v.value;
    var encrypted := Encryption.ServerEncrypt(p.codeContent, secret, cipher);
    if encrypted.Err? {
      return ServerError;
    }
    var row := NewCapsule(0, session.value, p, encrypted.value, now);
    var id := store.InsertCapsule(row);
    assert row.(id := id) == NewCapsule(id, session.value, p, encrypted.value, now);
    if p.accessMode == Shared && |p.sharedEmails| > 0 {
      store.AddShares(Grants(id, p.accessMode, p.sharedEmails));
    }
    reply := Created(id);
  }

  /** What is stored is never the submitted value itself but its server
      wrapping, and unwrapping it gives the submitted value back. */
  lemma StoredPayloadUnwraps(id: nat, uid: string, p: Parsed, now: int, secret: Option<string>, cipher: Encryption.Cipher)
    requires Encryption.Lawful(cipher) && Encryption.Configured(secret) && p.codeContent != []
    ensures var row := NewCapsule(id, uid, p, Encryption.ServerEncrypt(p.codeContent, secret, cipher).value, now);
      && Encryption.ServerDecrypt(row.codeContent, secret, cipher) == Ok(p.codeContent)
      && !row.isUnlocked && !row.isDeleted && row.userId == uid
  {
    Encryption.ServerRoundTrip(p.codeContent, secret, cipher);
  }
}
