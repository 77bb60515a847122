/** lib/auth-mock.ts: the in-memory one-shot e-mail codes and the login rate limiter. */
module AuthMock {

  // ---- Decimal codes ----

  function Digit(d: int): char
    requires 0 <= d < 10
  {
    "0123456789"[d]
  }

  predicate IsDigit(c: char)
  {
    '0' <= c <= '9'
  }

  /** `String(n)` for a non-negative integer: its decimal digits without leading zeros. */
  function NatToString(n: nat): (s: string)
    ensures |s| > 0 && forall i | 0 <= i < |s| :: IsDigit(s[i])
    ensures n > 0 ==> s[0] != '0'
  {
    if n < 10 then [Digit(n)] else NatToString(n / 10) + [Digit(n % 10)]
  }

  /** The value of a string of decimal digits. */
  function ParseDigits(s: string): (n: nat)
    requires forall i | 0 <= i < |s| :: IsDigit(s[i])
  {
    if s == [] then 0 else
      assert IsDigit(s[|s| - 1]);
      ParseDigits(s[..|s| - 1]) * 10 + (s[|s| - 1] as int - '0' as int)
  }

  /** Reading the digits back gives the number: `String` is one-to-one on codes. */
  lemma {:induction false} ParseNatToString(n: nat)
    ensures ParseDigits(NatToString(n)) == n
  {
    if n >= 10 {
      var s := NatToString(n);
      assert s[..|s| - 1] == NatToString(n / 10);
      ParseNatToString(n / 10);
    }
  }

  function Pow10(k: nat): (p: nat)
    ensures p >= 1
  {
    if k == 0 then 1 else 10 * Pow10(k - 1)
  }

  /** A number with `k + 1` digits is written with `k + 1` characters. */
  lemma {:induction false} NatToStringLength(n: nat, k: nat)
    requires Pow10(k) <= n < Pow10(k + 1)
    ensures |NatToString(n)| == k + 1
  {
    if k > 0 {
      NatToStringLength(n / 10, k - 1);
    }
  }

  const MinCode: nat := 100000
  const CodeRange: nat := 900000

  /** `Math.floor(100000 + Math.random() * 900000)` with `roll` standing for the floor of
      `Math.random() * 900000`. */
  function CodeFor(roll: nat): (code: string)
    requires roll < CodeRange
  {
    NatToString(MinCode + roll)
  }

  /** Every code is six digits long and denotes a number in [100000, 999999]; distinct rolls give
      distinct codes. */
  lemma CodeShape(roll: nat, other: nat)
    requires roll < CodeRange && other < CodeRange
    ensures |CodeFor(roll)| == 6
    ensures MinCode <= ParseDigits(CodeFor(roll)) <= 999999
    ensures CodeFor(roll) == CodeFor(other) ==> roll == other
  {
    assert Pow10(5) == 100000 && Pow10(6) == 1000000;
    NatToStringLength(MinCode + roll, 5);
    ParseNatToString(MinCode + roll);
    ParseNatToString(MinCode + other);
  }

  // ---- One-shot codes ----

  /** `verifyEmailOtp` on the code table `m`: whether it succeeds and the table afterwards. */
  function VerifyOtp(m: map<string, string>, email: string, code: string): (r: (bool, map<string, string>))
    ensures r.0 <==> email in m && m[email] == code
    ensures r.1 == if r.0 then m - {email} else m
  {
    var ok := email in m && m[email] == code;
    (ok, if ok then m - {email} else m)
  }

  /** After a successful verify the code is gone: the same e-mail fails with any code. */
  lemma VerifyIsOneShot(m: map<string, string>, email: string, code: string, again: string)
    requires VerifyOtp(m, email, code).0
    ensures !VerifyOtp(VerifyOtp(m, email, code).1, email, again).0
  {
  }

  /** A failed verify leaves every stored code where it was. */
  lemma FailedVerifyKeepsCodes(m: map<string, string>, email: string, code: string)
    requires !VerifyOtp(m, email, code).0
    ensures VerifyOtp(m, email, code).1 == m
    ensures email in m ==> VerifyOtp(m, email, m[email]).0
  {
  }

  /** Right after a request, verification of that e-mail succeeds exactly for the decimal form of
      the issued number: another number, or the same one with a leading zero, fails. */
  lemma {:induction false} IssuedCodeOnly(m: map<string, string>, email: string, roll: nat, guess: nat)
    requires roll < CodeRange
    ensures VerifyOtp(m[email := CodeFor(roll)], email, NatToString(guess)).0 <==> guess == MinCode + roll
    ensures !VerifyOtp(m[email := CodeFor(roll)], email, "0" + CodeFor(roll)).0
  {
    ParseNatToString(guess);
    ParseNatToString(MinCode + roll);
    var c := CodeFor(roll);
    assert ("0" + c)[0] != c[0];
  }

  // ---- Login rate limiter ----

  /** The module's `rateLimit` object. */
  datatype RateLimit = RateLimit(count: int, last: int)

  datatype LoginResult = LoginOk | TooManyAttempts | InvalidCredentials

  const MaxAttempts: int := 5
  const LockoutMs: int := 30000

  predicate LockedOut(rl: RateLimit, now: int)
  {
    rl.count >= MaxAttempts && now - rl.last < LockoutMs
  }

  /** `login`: the lock-out is checked first, then both fields must be non-empty. */
  function LoginStep(rl: RateLimit, identifier: string, password: string, now: int): (r: (LoginResult, RateLimit))
    ensures r.0 == TooManyAttempts <==> LockedOut(rl, now)
    ensures r.0 == InvalidCredentials <==> !LockedOut(rl, now) && (identifier == [] || password == [])
    ensures r.0 == TooManyAttempts ==> r.1 == rl
    ensures r.0 == InvalidCredentials ==> r.1 == RateLimit(rl.count + 1, now)
    ensures r.0 == LoginOk ==> r.1 == RateLimit(0, rl.last)
  {
    if LockedOut(rl, now) then (TooManyAttempts, rl)
    else if !(|identifier| > 0 && |password| > 0) then (InvalidCredentials, RateLimit(rl.count + 1, now))
    else (LoginOk, RateLimit(0, rl.last))
  }

  /** Five failed attempts in a row, from a fresh counter, lock out every attempt, valid or not,
      made within 30 seconds of the fifth. */
  lemma {:induction false} FiveFailuresLockOut(times: seq<int>, identifier: string, password: string, now: int)
    requires |times| == 5
    requires times[4] <= now < times[4] + LockoutMs
    ensures var rl := FailAll(RateLimit(0, 0), times);
      rl == RateLimit(5, times[4]) && LoginStep(rl, identifier, password, now).0 == TooManyAttempts
  {
    var rl := RateLimit(0, 0);
    var i := 0;
    while i < 5
      invariant 0 <= i <= 5
      invariant FailAll(RateLimit(0, 0), times) == FailAll(rl, times[i..])
      invariant rl.count == i && (i > 0 ==> rl.last == times[i - 1])
    {
      assert times[i..] == [times[i]] + times[i + 1..];
      rl := RateLimit(rl.count + 1, times[i]);
      i := i + 1;
    }
    assert times[5..] == [];
  }

  /** The limiter after a run of logins with empty credentials at the given times. */
  function FailAll(rl: RateLimit, times: seq<int>): (r: RateLimit)
    decreases |times|
  {
    if times == [] then rl else FailAll(LoginStep(rl, "", "", times[0]).1, times[1..])
  }

  /** The registration payload. */
  datatype RegisterPayload = RegisterPayload(email: string, username: string, password: string)

  /** `registerUser` accepts every payload. */
  function RegisterUser(payload: RegisterPayload): (ok: bool)
    ensures ok
  {
    true
  }

  /** The module's state: the code table and the limiter, both changed in place. */
  class AuthService {
    var emailToOtp: map<string, string>
    var rateLimit: RateLimit

    constructor ()
      ensures emailToOtp == map[] && rateLimit == RateLimit(0, 0)
    {
      emailToOtp, rateLimit := map[], RateLimit(0, 0);
    }

    /** `requestEmailOtp`: stores a fresh six-digit code for the e-mail, replacing any earlier one. */
    method RequestEmailOtp(email: string, roll: nat)
      requires roll < CodeRange
      modifies this`emailToOtp
      ensures emailToOtp == old(emailToOtp)[email := CodeFor(roll)]
    {
      var code := NatToString(MinCode + roll);
      emailToOtp := emailToOtp[email := code];
    }

    /** `verifyEmailOtp`: succeeds when the stored code equals the given one, and then deletes it. */
    method VerifyEmailOtp(email: string, code: string) returns (ok: bool)
      modifies this`emailToOtp
      ensures (ok, emailToOtp) == VerifyOtp(old(emailToOtp), email, code)
    {
      ok := email in emailToOtp && emailToOtp[email] == code;
      if ok {
        emailToOtp := emailToOtp - {email};
      }
    }

    /** `login` at time `now`. */
    method Login(identifier: string, password: string, now: int) returns (result: LoginResult)
      modifies this`rateLimit
      ensures (result, rateLimit) == LoginStep(old(rateLimit), identifier, password, now)
    {
      if rateLimit.count >= MaxAttempts && now - rateLimit.last < LockoutMs {
        return TooManyAttempts;
      }
      if !(|identifier| > 0 && |password| > 0) {
        rateLimit := rateLimit.(count := rateLimit.count + 1);
        rateLimit := rateLimit.(last := now);
        return InvalidCredentials;
      }
      rateLimit := rateLimit.(count := 0);
      result := LoginOk;
    }
  }
}
