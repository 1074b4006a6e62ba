/** Request-body validation. Each DTO class is a table of field rules, one per
    decorated property, and `Accepts` is what the validation pipe decides for
    a JSON body: an `@IsOptional()` field may be absent or `null`, every other
    field must pass all of its decorators. The two regular expressions of the
    OTP DTOs are predicates on strings, each with a scanning matcher proved
    equal to it. */
module Validation {
  import opened Outcomes
  import opened Digits

  /** A JSON value of a request body. */
  datatype Json = JString(s: string) | JNumber(n: int) | JBool(b: bool) | JNull

  type Body = map<string, Json>

  /** The two patterns used with `@Matches`. */
  datatype Pattern =
    | PhonePattern  // /^\+?[1-9]\d{1,14}$/
    | OtpPattern    // /^\d{6}$/

  /** A class-validator decorator. */
  datatype Check =
    | IsString
    | IsEmail
    | MinLength(min: nat)
    | MaxLength(max: nat)
    | Matches(pattern: Pattern)

  datatype FieldRule = FieldRule(field: string, optional: bool, checks: seq<Check>)

  // ---------------------------------------------------------------------
  // The regular expressions
  // ---------------------------------------------------------------------

  /** `[1-9]\d{1,14}`: a non-zero digit followed by one to fourteen digits. */
  predicate NationalNumber(t: string) {
    2 <= |t| <= 15 && '1' <= t[0] <= '9' && AllDigits(t[1..])
  }

  /** `^\+?[1-9]\d{1,14}$`: the optional `+` is taken or not. */
  predicate IsPhoneNumber(s: string) {
    NationalNumber(s) || (|s| >= 1 && s[0] == '+' && NationalNumber(s[1..]))
  }

  /** `^\d{6}$` (JavaScript's `$` without the `m` flag matches only at the end). */
  predicate IsOtpCode(s: string) {
    |s| == 6 && AllDigits(s)
  }

  function PatternHolds(p: Pattern, s: string): bool {
    match p
    case PhonePattern => IsPhoneNumber(s)
    case OtpPattern => IsOtpCode(s)
  }

  /** A left-to-right scan of `s` against `^\+?[1-9]\d{1,14}$`. */
  method MatchPhoneNumber(s: string) returns (ok: bool)
    ensures ok <==> IsPhoneNumber(s)
  {
    var start := if |s| > 0 && s[0] == '+' then 1 else 0;
    var n := |s| - start;
    if n < 2 || n > 15 || !('1' <= s[start] <= '9') {
      return false;
    }
    var i := start + 1;
    while i < |s|
      invariant start + 1 <= i <= |s|
      invariant forall k :: start + 1 <= k < i ==> IsDigit(s[k])
    {
      if !IsDigit(s[i]) {
        assert !AllDigits(s[start..][1..]) by {
          assert s[start..][1..][i - start - 1] == s[i];
        }
        return false;
      }
      i := i + 1;
    }
    assert AllDigits(s[start..][1..]) by {
      forall k | 0 <= k < |s[start..][1..]|
        ensures IsDigit(s[start..][1..][k])
      {
        assert s[start..][1..][k] == s[start + 1 + k];
      }
    }
    assert start == 0 ==> s[start..] == s;
    return true;
  }

  /** A scan of `s` against `^\d{6}$`. */
  method MatchOtpCode(s: string) returns (ok: bool)
    ensures ok <==> IsOtpCode(s)
  {
    if |s| != 6 {
      return false;
    }
    var i := 0;
    while i < 6
      invariant 0 <= i <= 6
      invariant forall k :: 0 <= k < i ==> IsDigit(s[k])
    {
      if !IsDigit(s[i]) {
        return false;
      }
      i := i + 1;
    }
    return true;
  }

  /** The phone pattern counts 2 to 15 digits after the optional `+`, and the
      first of them is never `0`. */
  lemma PhoneNumberShape(s: string)
    requires IsPhoneNumber(s)
    ensures var t := if s[0] == '+' then s[1..] else s;
            2 <= |t| <= 15 && AllDigits(t) && t[0] != '0'
  {
    var t := if s[0] == '+' then s[1..] else s;
    assert forall k :: 1 <= k < |t| ==> t[k] == t[1..][k - 1];
  }

  /** A number whose first digit after the optional `+` is `0` is rejected. */
  lemma LeadingZeroRejected(s: string)
    requires |s| >= 1 && (s[0] == '0' || (|s| >= 2 && s[0] == '+' && s[1] == '0'))
    ensures !IsPhoneNumber(s)
  {
  }

  /** Every all-digit string of 2 to 15 characters that does not start with
      `0` is accepted, with or without a leading `+`. */
  lemma PhoneNumberComplete(t: string)
    requires 2 <= |t| <= 15 && AllDigits(t) && t[0] != '0'
    ensures IsPhoneNumber(t) && IsPhoneNumber(['+'] + t)
  {
    assert (['+'] + t)[1..] == t;
  }

  // ---------------------------------------------------------------------
  // Decorator semantics
  // ---------------------------------------------------------------------

  /** One decorator applied to a present value: every check but `IsString`
      itself also rejects a non-string. The address grammar of `IsEmail` is
      not modelled: any string passes it. */
  predicate CheckHolds(c: Check, v: Json) {
    v.JString? &&
    match c
    case IsString => true
    case IsEmail => true
    case MinLength(min) => |v.s| >= min
    case MaxLength(max) => |v.s| <= max
    case Matches(p) => PatternHolds(p, v.s)
  }

  /** An absent or `null` optional field skips its other decorators; every
      other field (including an absent required one, which is `undefined`)
      must pass them all. */
  predicate FieldOk(r: FieldRule, body: Body) {
    if r.field !in body then r.optional || r.checks == []
    else if body[r.field].JNull? && r.optional then true
    else AllChecks(r.checks, body[r.field])
  }

  /** Every decorator of a property passes. */
  predicate AllChecks(checks: seq<Check>, v: Json)
    decreases |checks|
  {
    |checks| == 0 || (CheckHolds(checks[0], v) && AllChecks(checks[1..], v))
  }

  /** The validation pipe accepts the body: every property passes. */
  predicate Accepts(rules: seq<FieldRule>, body: Body)
    decreases |rules|
  {
    |rules| == 0 || (FieldOk(rules[0], body) && Accepts(rules[1..], body))
  }

  // ---------------------------------------------------------------------
  // The DTO classes
  // ---------------------------------------------------------------------

  const SignUpRules: seq<FieldRule> := [
    FieldRule("email", false, [IsEmail]),
    FieldRule("username", false, [IsString, MinLength(3), MaxLength(30)]),
    FieldRule("password", false, [IsString, MinLength(6), MaxLength(100)]),
    FieldRule("bio", true, [IsString, MaxLength(500)])
  ]

  const UpdateUserRules: seq<FieldRule> := [
    FieldRule("username", true, [IsString, MaxLength(30)]),
    FieldRule("bio", true, [IsString, MaxLength(500)])
  ]

  const SendSmsOtpRules: seq<FieldRule> := [
    FieldRule("phoneNumber", false, [IsString, Matches(PhonePattern)])
  ]

  const VerifySmsOtpRules: seq<FieldRule> := [
    FieldRule("phoneNumber", false, [IsString, Matches(PhonePattern)]),
    FieldRule("token", false, [IsString, Matches(OtpPattern)])
  ]

  const SendEmailOtpRules: seq<FieldRule> := [
    FieldRule("email", false, [IsEmail])
  ]

  const VerifyEmailOtpRules: seq<FieldRule> := [
    FieldRule("email", false, [IsEmail]),
    FieldRule("token", false, [IsString, Matches(OtpPattern)])
  ]

  /** A present string field. */
  predicate HasString(body: Body, f: string) {
    f in body && body[f].JString?
  }

  /** An optional field that is absent, `null`, or a string of at most `max`
      characters. */
  predicate OptionalStringAtMost(body: Body, f: string, max: nat) {
    f !in body || body[f].JNull? || (body[f].JString? && |body[f].s| <= max)
  }

  /** Sign-up requires email, username and password; username is 3 to 30
      characters, password 6 to 100, and a bio, when given, at most 500. */
  lemma SignUpRulesMeaning(body: Body)
    ensures Accepts(SignUpRules, body) <==>
              && HasString(body, "email")
              && HasString(body, "username") && 3 <= |body["username"].s| <= 30
              && HasString(body, "password") && 6 <= |body["password"].s| <= 100
              && OptionalStringAtMost(body, "bio", 500)
  {
    assert FieldOk(SignUpRules[0], body) <==> HasString(body, "email");
    assert FieldOk(SignUpRules[1], body) <==>
      HasString(body, "username") && 3 <= |body["username"].s| <= 30;
    assert FieldOk(SignUpRules[2], body) <==>
      HasString(body, "password") && 6 <= |body["password"].s| <= 100;
    assert FieldOk(SignUpRules[3], body) <==> OptionalStringAtMost(body, "bio", 500);
  }

  /** Both profile fields are optional; a given username has at most 30
      characters and no minimum, a given bio at most 500. */
  lemma UpdateUserRulesMeaning(body: Body)
    ensures Accepts(UpdateUserRules, body) <==>
              OptionalStringAtMost(body, "username", 30) && OptionalStringAtMost(body, "bio", 500)
  {
    assert FieldOk(UpdateUserRules[0], body) <==> OptionalStringAtMost(body, "username", 30);
    assert FieldOk(UpdateUserRules[1], body) <==> OptionalStringAtMost(body, "bio", 500);
  }

  /** An empty profile update is valid. */
  lemma EmptyUpdateAccepted()
    ensures Accepts(UpdateUserRules, map[])
  {
    UpdateUserRulesMeaning(map[]);
  }

  /** A one-character username passes the profile-update rules but not the
      sign-up rules. */
  lemma ShortUsernameOnlyOnUpdate()
    ensures Accepts(UpdateUserRules, map["username" := JString("a")])
    ensures !Accepts(SignUpRules, map["email" := JString("a@x.com"), "username" := JString("a"),
                                      "password" := JString("secret1")])
  {
    UpdateUserRulesMeaning(map["username" := JString("a")]);
    var b := map["email" := JString("a@x.com"), "username" := JString("a"),
                 "password" := JString("secret1")];
    assert !FieldOk(SignUpRules[1], b);
  }

  /** The send and verify SMS DTOs accept exactly the same phone numbers, and
      the verify DTO additionally requires a six-digit code. */
  lemma SmsDtosShareThePhoneRule(body: Body)
    ensures Accepts(SendSmsOtpRules, body) <==>
              HasString(body, "phoneNumber") && IsPhoneNumber(body["phoneNumber"].s)
    ensures Accepts(VerifySmsOtpRules, body) <==>
              && HasString(body, "phoneNumber") && IsPhoneNumber(body["phoneNumber"].s)
              && HasString(body, "token") && IsOtpCode(body["token"].s)
  {
    assert FieldOk(SendSmsOtpRules[0], body) <==>
      HasString(body, "phoneNumber") && IsPhoneNumber(body["phoneNumber"].s);
    assert FieldOk(VerifySmsOtpRules[1], body) <==>
      HasString(body, "token") && IsOtpCode(body["token"].s);
  }

  /** The email-OTP verify DTO applies the same six-digit rule as the SMS one. */
  lemma EmailOtpUsesTheSmsCodeRule(body: Body)
    ensures Accepts(VerifyEmailOtpRules, body) <==>
              HasString(body, "email") && HasString(body, "token") && IsOtpCode(body["token"].s)
  {
    assert FieldOk(VerifyEmailOtpRules[0], body) <==> HasString(body, "email");
    assert FieldOk(VerifyEmailOtpRules[1], body) <==>
      HasString(body, "token") && IsOtpCode(body["token"].s);
  }

  // ---------------------------------------------------------------------
  // Typed DTOs handed to the services
  // ---------------------------------------------------------------------

  datatype SignUpDto = SignUpDto(email: string, username: string, password: string, bio: Option<string>)

  /** An optional DTO property as `Object.assign` copies it: not sent (the
      property is not copied), sent as `null` (the column is set to `NULL`),
      or sent as a string. */
  datatype Field = Unsent | Null | Sent(value: string) {

    /** The value as an optional string: `null` and unsent are both `None`. */
    function AsOption(): Option<string> {
      if Sent? then Some(value) else None
    }
  }

  /** The properties of `UpdateUserDto`. Properties the DTO does not declare
      are assumed to be stripped before the service sees the body. */
  datatype UpdateUserDto = UpdateUserDto(username: Field, bio: Field)

  function OptionalString(body: Body, f: string): Option<string> {
    if f in body && body[f].JString? then Some(body[f].s) else None
  }

  function FieldOf(body: Body, f: string): Field {
    if f !in body then Unsent
    else if body[f].JString? then Sent(body[f].s)
    else Null
  }

  /** The sign-up DTO of an accepted body: the body's own strings, and a bio
      only when one was sent as a string (`null` and absent both leave the
      column `NULL`). */
  function SignUpDtoOf(body: Body): (d: SignUpDto)
    requires Accepts(SignUpRules, body)
    ensures HasString(body, "email") && d.email == body["email"].s
    ensures HasString(body, "username") && d.username == body["username"].s
    ensures HasString(body, "password") && d.password == body["password"].s
    ensures d.bio.Some? <==> HasString(body, "bio")
    ensures d.bio.Some? ==> d.bio.value == body["bio"].s
    ensures 3 <= |d.username| <= 30 && 6 <= |d.password| <= 100
    ensures d.bio.Some? ==> |d.bio.value| <= 500
  {
    SignUpRulesMeaning(body);
    SignUpDto(body["email"].s, body["username"].s, body["password"].s, OptionalString(body, "bio"))
  }

  /** The profile-update DTO of an accepted body: an absent property stays
      unsent, `null` stays `null`, and a string is carried as is. */
  function UpdateUserDtoOf(body: Body): (d: UpdateUserDto)
    requires Accepts(UpdateUserRules, body)
    ensures d.username.Unsent? <==> "username" !in body
    ensures d.username.Null? <==> "username" in body && body["username"].JNull?
    ensures d.username.Sent? <==> HasString(body, "username")
    ensures d.username.Sent? ==> d.username.value == body["username"].s && |d.username.value| <= 30
    ensures d.bio.Unsent? <==> "bio" !in body
    ensures d.bio.Null? <==> "bio" in body && body["bio"].JNull?
    ensures d.bio.Sent? <==> HasString(body, "bio")
    ensures d.bio.Sent? ==> d.bio.value == body["bio"].s && |d.bio.value| <= 500
  {
    UpdateUserRulesMeaning(body);
    UpdateUserDto(FieldOf(body, "username"), FieldOf(body, "bio"))
  }
}
