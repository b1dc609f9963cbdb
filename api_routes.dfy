/**
 * The decision logic of the Hasura action handlers in src/routes/api.rs:
 * issuing and confirming an email code, the shared-secret middleware, the
 * error response, and the restart route that talks to the supervisor.
 *
 * Times are whole seconds; the user lookup, the upsert and the mail
 * delivery are given as their answers, and each handler returns the calls
 * it made, in order.
 */
module ApiRoutes {
  import opened Wrappers
  import opened Model
  import GqError
  import opened TimeFormat
  import Supervisor

  /** `ApiError`; `InvalidCode` is spelt `InavlidCode` in the source. */
  datatype ApiError =
    | UserNotFound
    | PermissionDenied
    | InvalidEmail
    | InvalidCode
    | CodeNotMatch
    | CodeNotRegistered
    | CodeExpired
    | Hasura(source: GqError.HasuraError)
    | FailedGetPresignedPost
    | FailedToSaveMedia(cause: GqError.HasuraError)
    | SMTPServerUnrechable
    | SendEmail(reason: string)
    | UpdateEmailProhibited
    | Generic(message: string, detail: string)

  /** The seconds in `minutes` minutes. */
  function Minutes(minutes: nat): nat { 60 * minutes }

  /** `passed_specified_minutes`: strictly more than `minutes` minutes have gone by. */
  predicate PassedSpecifiedMinutes(issued_at: Instant, now: Instant, minutes: nat)
  {
    now - issued_at > Minutes(minutes)
  }

  /**
   * `can_upsert_email`: a new code may be issued unless one was issued in
   * the last five minutes.
   */
  function CanUpsertEmail(user: Option<HasuraUser>, now: Instant): (ok: bool)
  {
    match user
    case None => true
    case Some(u) =>
      match u.email_confirm_code_issued_at
      case None => true
      case Some(issued) => PassedSpecifiedMinutes(issued, now, 5)
  }

  /** `can_confirm_email`: at most ten minutes old, ten minutes included. */
  predicate CanConfirmEmail(issued_at: Instant, now: Instant)
  {
    now - issued_at <= Minutes(10)
  }

  /** Who may be issued a code, and from when on. */
  lemma CanUpsertEmailCases(user: Option<HasuraUser>, now: Instant)
    ensures user.None? ==> CanUpsertEmail(user, now)
    ensures user.Some? && user.value.email_confirm_code_issued_at.None? ==> CanUpsertEmail(user, now)
    ensures user.Some? && user.value.email_confirm_code_issued_at.Some? ==>
      (CanUpsertEmail(user, now) <==> now > user.value.email_confirm_code_issued_at.value + 300)
  {
  }

  /** Once allowed, issuing stays allowed as time goes on. */
  lemma CanUpsertEmailMonotone(user: Option<HasuraUser>, now: Instant, later: Instant)
    requires now <= later && CanUpsertEmail(user, now)
    ensures CanUpsertEmail(user, later)
  {
  }

  /** The confirmation window closes after exactly 600 seconds, and stays closed. */
  lemma ConfirmWindow(issued_at: Instant, now: Instant, later: Instant)
    ensures CanConfirmEmail(issued_at, issued_at + 600)
    ensures !CanConfirmEmail(issued_at, issued_at + 601)
    ensures now <= later && CanConfirmEmail(issued_at, later) ==> CanConfirmEmail(issued_at, now)
  {
  }

  /**
   * The windows overlap: between five and ten minutes after issue a new code
   * may already be requested while the old one could still be confirmed.
   */
  lemma ReissueWhileConfirmable(u: HasuraUser, now: Instant)
    requires u.email_confirm_code_issued_at.Some?
    requires var t := u.email_confirm_code_issued_at.value; t + 300 < now <= t + 600
    ensures CanUpsertEmail(Some(u), now) && CanConfirmEmail(u.email_confirm_code_issued_at.value, now)
  {
  }

  // ---------------------------------------------------------------------
  // The six-digit code

  /** The number of bytes of `c` in UTF-8. */
  function Utf8Width(c: char): (n: nat)
    ensures 1 <= n <= 4 && (n == 1 <==> c as int < 0x80)
  {
    if c as int < 0x80 then 1
    else if c as int < 0x800 then 2
    else if c as int < 0x10000 then 3
    else 4
  }

  /** `str::len`: the length of `s` in UTF-8 bytes. */
  function Utf8Len(s: string): nat
  {
    if |s| == 0 then 0 else Utf8Len(s[..|s| - 1]) + Utf8Width(s[|s| - 1])
  }

  /** An ASCII text has as many bytes as characters; any other has more. */
  lemma {:induction false} Utf8LenBounds(s: string)
    ensures Utf8Len(s) >= |s|
    ensures Utf8Len(s) == |s| <==> forall i :: 0 <= i < |s| ==> s[i] as int < 0x80
  {
    if |s| > 0 {
      var init := s[..|s| - 1];
      Utf8LenBounds(init);
      if forall i :: 0 <= i < |s| ==> s[i] as int < 0x80 {
        assert forall i :: 0 <= i < |init| ==> init[i] == s[i];
      } else {
        var i :| 0 <= i < |s| && s[i] as int >= 0x80;
        if i < |s| - 1 {
          assert init[i] == s[i];
        }
      }
    }
  }

  /**
   * `char::is_numeric`, restricted to the decimal digits of three scripts:
   * ASCII, Arabic-Indic and full width.
   */
  predicate IsNumeric(c: char)
  {
    || ('0' <= c <= '9')
    || ('\U{0660}' <= c <= '\U{0669}')
    || ('\U{FF10}' <= c <= '\U{FF19}')
  }

  /** The format check of `confirm_email`: six bytes, every character numeric. */
  predicate CodeFormatOk(code: string)
  {
    Utf8Len(code) == 6 && forall i :: 0 <= i < |code| ==> IsNumeric(code[i])
  }

  /** On ASCII input the check accepts exactly six decimal digits. */
  lemma AsciiCodeFormat(code: string)
    requires forall i :: 0 <= i < |code| ==> code[i] as int < 0x80
    ensures CodeFormatOk(code) <==> |code| == 6 && forall i :: 0 <= i < |code| ==> IsDigit(code[i])
  {
    Utf8LenBounds(code);
  }

  /** Three Arabic-Indic digits are six bytes and pass the check. */
  lemma ThreeArabicIndicDigitsPass()
    ensures CodeFormatOk("\U{0661}\U{0662}\U{0663}")
  {
    var s := "\U{0661}\U{0662}\U{0663}";
    assert s[..2][..1] == s[..1] && s[..1][..0] == [];
    assert Utf8Len(s[..1]) == 2;
    assert Utf8Len(s[..2]) == 4;
    assert Utf8Len(s) == Utf8Len(s[..2]) + 2;
  }

  /** The decimal text of a number, without leading zeros. */
  function Decimal(n: nat): (s: string)
    ensures |s| > 0 && forall i :: 0 <= i < |s| ==> IsDigit(s[i])
  {
    if n < 10 then [DigitChar(n)] else Decimal(n / 10) + [DigitChar(n % 10)]
  }

  function DecimalValue(s: string): nat
    requires forall i :: 0 <= i < |s| ==> IsDigit(s[i])
  {
    if |s| == 0 then 0 else 10 * DecimalValue(s[..|s| - 1]) + DigitValue(s[|s| - 1])
  }

  function Pow10(k: nat): (p: nat)
    ensures p >= 1
  {
    if k == 0 then 1 else 10 * Pow10(k - 1)
  }

  /** Reading the decimal text back gives the number. */
  lemma {:induction false} DecimalRoundTrip(n: nat)
    ensures DecimalValue(Decimal(n)) == n
    decreases n
  {
    if n >= 10 {
      DecimalRoundTrip(n / 10);
      var s := Decimal(n);
      assert s[..|s| - 1] == Decimal(n / 10);
    }
  }

  /** A number of `k` digits is written with `k` characters. */
  lemma {:induction false} DecimalLength(n: nat, k: nat)
    requires k >= 1 && Pow10(k - 1) <= n < Pow10(k)
    ensures |Decimal(n)| == k
    decreases k
  {
    if k > 1 {
      assert Pow10(k - 1) == 10 * Pow10(k - 2);
      assert Pow10(k) == 10 * Pow10(k - 1);
      DecimalLength(n / 10, k - 1);
    }
  }

  /**
   * A code drawn from `100000..=999999`, as `register_email` issues it, is
   * six ASCII digits and passes the format check of `confirm_email`.
   */
  lemma IssuedCodePasses(n: nat)
    requires 100000 <= n <= 999999
    ensures |Decimal(n)| == 6 && CodeFormatOk(Decimal(n)) && DecimalValue(Decimal(n)) == n
  {
    assert Pow10(6) == 1000000 && Pow10(5) == 100000 by {
      assert Pow10(1) == 10;
    }
    DecimalLength(n, 6);
    DecimalRoundTrip(n);
    AsciiCodeFormat(Decimal(n));
  }

  // ---------------------------------------------------------------------
  // The handlers

  datatype ApiCall =
    | GetSelf(user_id: string)
    | UpsertEmail(email: string, code: Option<string>, issued_at: Option<Instant>,
                  confirmed: bool, confirmed_at: Option<Instant>, user_id: string, role: Role)
    | SendCode(sent_code: string, to: string)

  /**
   * `register_email`. An empty address is refused before anything is
   * looked up. Then, if a new code may be issued, a random six-digit code is
   * stored with the issue time and the role `Anonymous`, and mailed. `mail`
   * is the outcome of the delivery: the server unreachable, or the send
   * refused.
   */
  method RegisterEmail(
    email: string, user_id: string, now: Instant,
    lookup: Result<Option<HasuraUser>, GqError.HasuraError>,
    upsert: Result<(), GqError.HasuraError>,
    mail: Result<(), ApiError>)
    returns (r: Result<string, ApiError>, calls: seq<ApiCall>)
    requires mail.Failure? ==> mail.error.SMTPServerUnrechable? || mail.error.SendEmail?
    ensures email == "" ==> r == Failure(InvalidEmail) && calls == []
    ensures email != "" ==> |calls| >= 1 && calls[0] == GetSelf(user_id)
    ensures email != "" && lookup.Failure? ==> r == Failure(Hasura(lookup.error)) && |calls| == 1
    ensures email != "" && lookup.Success? && !CanUpsertEmail(lookup.value, now) ==>
      r == Failure(UpdateEmailProhibited) && |calls| == 1
    ensures email != "" && lookup.Success? && CanUpsertEmail(lookup.value, now) ==>
      |calls| >= 2 && calls[1].UpsertEmail?
      && calls[1].code.Some? && CodeFormatOk(calls[1].code.value)
      && (exists n :: 100000 <= n <= 999999 && calls[1].code.value == Decimal(n))
      && calls[1] == UpsertEmail(email, calls[1].code, Some(now), false, None, user_id, Anonymous)
    ensures email != "" && lookup.Success? && CanUpsertEmail(lookup.value, now) && upsert.Failure? ==>
      r == Failure(Hasura(upsert.error)) && |calls| == 2
    ensures email != "" && lookup.Success? && CanUpsertEmail(lookup.value, now) && upsert.Success? ==>
      |calls| == 3 && calls[2] == SendCode(calls[1].code.value, email)
      && r == (if mail.Failure? then Failure(mail.error) else Success(email))
  {
    if email == "" {
      return Failure(InvalidEmail), [];
    }
    calls := [GetSelf(user_id)];
    if lookup.Failure? {
      return Failure(Hasura(lookup.error)), calls;
    }
    if !CanUpsertEmail(lookup.value, now) {
      return Failure(UpdateEmailProhibited), calls;
    }
    var n :| 100000 <= n <= 999999;
    var code := Decimal(n);
    IssuedCodePasses(n);
    calls := calls + [UpsertEmail(email, Some(code), Some(now), false, None, user_id, Anonymous)];
    if upsert.Failure? {
      return Failure(Hasura(upsert.error)), calls;
    }
    calls := calls + [SendCode(code, email)];
    if mail.Failure? {
      return Failure(mail.error), calls;
    }
    return Success(email), calls;
  }

  /**
   * The checks of `confirm_email` after the lookup, in the order they are
   * made.
   */
  function ConfirmCheck(user: Option<HasuraUser>, email: string, code: string, now: Instant): (r: Result<(), ApiError>)
    ensures user.None? ==> r == Failure(ApiError.UserNotFound)
    ensures user.Some? && user.value.email_confirmed ==> r == Failure(PermissionDenied)
    ensures user.Some? && !user.value.email_confirmed && user.value.email_confirm_code.None? ==>
      r == Failure(CodeNotRegistered)
    ensures user.Some? && !user.value.email_confirmed && user.value.email_confirm_code_issued_at.None? ==>
      r == Failure(CodeNotRegistered)
    ensures r.Success? <==>
      user.Some? && !user.value.email_confirmed
      && user.value.email_confirm_code == Some(code)
      && user.value.email_confirm_code_issued_at.Some?
      && CanConfirmEmail(user.value.email_confirm_code_issued_at.value, now)
      && user.value.email == email
    ensures r == Failure(CodeExpired) <==>
      user.Some? && !user.value.email_confirmed
      && user.value.email_confirm_code.Some?
      && user.value.email_confirm_code_issued_at.Some?
      && !CanConfirmEmail(user.value.email_confirm_code_issued_at.value, now)
    ensures r == Failure(CodeNotMatch) <==>
      user.Some? && !user.value.email_confirmed
      && user.value.email_confirm_code.Some?
      && user.value.email_confirm_code_issued_at.Some?
      && CanConfirmEmail(user.value.email_confirm_code_issued_at.value, now)
      && !(user.value.email_confirm_code.value == code && user.value.email == email)
  {
    match user
    case None => Failure(ApiError.UserNotFound)
    case Some(u) =>
      if u.email_confirmed then Failure(PermissionDenied)
      else
        match (u.email_confirm_code, u.email_confirm_code_issued_at)
        case (Some(stored), Some(issued)) =>
          if !CanConfirmEmail(issued, now) then Failure(CodeExpired)
          else if stored == code && u.email == email then Success(())
          else Failure(CodeNotMatch)
        case _ => Failure(CodeNotRegistered)
  }

  /**
   * `confirm_email`. A malformed code is refused before anything is looked
   * up; a code that passes every check marks the address confirmed, clears
   * the code and raises the role to `Basic`.
   */
  method ConfirmEmail(
    email: string, code: string, user_id: string, now: Instant,
    lookup: Result<Option<HasuraUser>, GqError.HasuraError>,
    upsert: Result<(), GqError.HasuraError>)
    returns (r: Result<bool, ApiError>, calls: seq<ApiCall>)
    ensures !CodeFormatOk(code) ==> r == Failure(InvalidCode) && calls == []
    ensures CodeFormatOk(code) ==> |calls| >= 1 && calls[0] == GetSelf(user_id)
    ensures CodeFormatOk(code) && lookup.Failure? ==> r == Failure(Hasura(lookup.error)) && |calls| == 1
    ensures CodeFormatOk(code) && lookup.Success? && ConfirmCheck(lookup.value, email, code, now).Failure? ==>
      r == Failure(ConfirmCheck(lookup.value, email, code, now).error) && |calls| == 1
    ensures CodeFormatOk(code) && lookup.Success? && ConfirmCheck(lookup.value, email, code, now).Success? ==>
      calls == [GetSelf(user_id), UpsertEmail(email, None, None, true, Some(now), user_id, Basic)]
      && r == (if upsert.Failure? then Failure(Hasura(upsert.error)) else Success(true))
    ensures r.Success? ==> r.value
  {
    if !CodeFormatOk(code) {
      return Failure(InvalidCode), [];
    }
    calls := [GetSelf(user_id)];
    if lookup.Failure? {
      return Failure(Hasura(lookup.error)), calls;
    }
    var check := ConfirmCheck(lookup.value, email, code, now);
    if check.Failure? {
      return Failure(check.error), calls;
    }
    calls := calls + [UpsertEmail(email, None, None, true, Some(now), user_id, Basic)];
    if upsert.Failure? {
      return Failure(Hasura(upsert.error)), calls;
    }
    return Success(true), calls;
  }

  /** A confirmation succeeds only for the code the last registration issued. */
  lemma {:induction false} ConfirmNeedsIssuedCode(
    email: string, n: nat, user_id: string, issued: Instant, later: Instant, u: HasuraUser)
    requires 100000 <= n <= 999999
    requires u.email_confirm_code == Some(Decimal(n)) && u.email_confirm_code_issued_at == Some(issued)
    requires u.email == email && !u.email_confirmed && issued <= later
    ensures CodeFormatOk(Decimal(n))
    ensures ConfirmCheck(Some(u), email, Decimal(n), later).Success? <==> later <= issued + 600
    ensures forall m :: 100000 <= m <= 999999 && m != n ==>
      ConfirmCheck(Some(u), email, Decimal(m), later).Failure?
  {
    IssuedCodePasses(n);
    forall m | 100000 <= m <= 999999 && m != n
      ensures ConfirmCheck(Some(u), email, Decimal(m), later).Failure?
    {
      DecimalRoundTrip(m);
      DecimalRoundTrip(n);
    }
  }

  // ---------------------------------------------------------------------
  // Responses and the middleware

  datatype ErrorResponse = ErrorResponse(status: nat, message: string, code: string)

  /** snafu's `Display` of a variant without a message of its own: its name. */
  function VariantName(e: ApiError): string
  {
    match e
    case UserNotFound => "UserNotFound"
    case PermissionDenied => "PermissionDenied"
    case InvalidEmail => "InvalidEmail"
    case InvalidCode => "InavlidCode"
    case CodeNotMatch => "CodeNotMatch"
    case CodeNotRegistered => "CodeNotRegistered"
    case CodeExpired => "CodeExpired"
    case Hasura(_) => "Hasura"
    case FailedGetPresignedPost => "FailedGetPresignedPost"
    case FailedToSaveMedia(_) => "FailedToSaveMedia"
    case SMTPServerUnrechable => "SMTPServerUnrechable"
    case SendEmail(_) => "SendEmail"
    case UpdateEmailProhibited => "UpdateEmailProhibited"
    case Generic(m, _) => m
  }

  /**
   * `ApiError::into_response`: every error is a 400 whose extension code
   * names the error, except that a failed send carries its cause and a
   * generic error its message and detail.
   */
  function IntoResponse(e: ApiError): (r: ErrorResponse)
    ensures r.status == 400
    ensures !e.SendEmail? && !e.Generic? ==> r.code == VariantName(e)
    ensures e.SendEmail? ==> r.code == e.reason
    ensures e.Generic? ==> r.message == e.message && r.code == e.detail
  {
    var (message, code) := match e
      case UserNotFound => ("ユーザーの登録が確認できません", VariantName(e))
      case PermissionDenied => ("メールアドレスは既に認証ずみです", "PermissionDenied")
      case InvalidEmail => ("不正なメールアドレスです", "InvalidEmail")
      case CodeNotMatch => ("認証コードが一致しません", VariantName(e))
      case CodeNotRegistered => ("認証コードが登録されていません", VariantName(e))
      case CodeExpired => ("認証コードの有効期限が過ぎています", VariantName(e))
      case InvalidCode => ("数字6桁で入力してください", VariantName(e))
      case SendEmail(reason) => ("メール送信時にエラーが発生しました" + reason, reason)
      case UpdateEmailProhibited => ("メールアドレスの再設定が許可されていません", VariantName(e))
      case Generic(m, detail) => (m, detail)
      case _ => (VariantName(e), VariantName(e));
    ErrorResponse(400, message, code)
  }

  /** Distinct fixed-code errors give distinct codes. */
  lemma ResponseCodesDistinct(e1: ApiError, e2: ApiError)
    requires !e1.SendEmail? && !e1.Generic? && !e2.SendEmail? && !e2.Generic?
    requires !e1.Hasura? && !e1.FailedToSaveMedia? && !e2.Hasura? && !e2.FailedToSaveMedia?
    ensures IntoResponse(e1).code == IntoResponse(e2).code <==> e1 == e2
  {
  }

  datatype Middleware = Forward | Reject(status: nat)

  /**
   * `action_auth_middleware`: a request goes on exactly when its
   * `ACTION_SECRET` header is present and equal to the configured secret;
   * any other gets a 401.
   */
  function ActionAuthMiddleware(header: Option<string>, secret: string): (r: Middleware)
    ensures r.Forward? <==> header == Some(secret)
    ensures r.Reject? ==> r.status == 401
  {
    match header
    case Some(given) => if given == secret then Forward else Reject(401)
    case None => Reject(401)
  }

  /** `restart_scheduler`: answers whether the restart message reached the supervisor. */
  method RestartScheduler(handle: Supervisor.ActorHandle, user_id: string) returns (result: bool)
    modifies handle.sender
    ensures result == old(handle.sender.receiverAlive)
    ensures handle.sender.receiverAlive == old(handle.sender.receiverAlive)
    ensures handle.sender.queue ==
      if result then old(handle.sender.queue) + [Supervisor.RestartUserSchedule(user_id)]
      else old(handle.sender.queue)
  {
    result := handle.RestartTaskForUser(user_id);
  }
}
