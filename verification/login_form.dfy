/** The sign-in form: the e-mail pattern `^[^\s@]+@[^\s@]+\.[^\s@]+$`, the
    five-character CAPTCHA, and the submit handler that runs its three
    checks in order before handing the credentials on. `Math.random` is
    modelled by the sequence of draws it would return. */
module LoginForm {

  import opened Wrappers
  import opened Text
  import Collections

  // ------------------------------------------------------------ e-mail shape

  /** A character of the class `[^\s@]`. */
  predicate Plain(c: char) {
    !IsSpace(c) && c != '@'
  }

  /** The pattern matched with its one '@' at `a` and a '.' at `d` that
      splits the domain into two non-empty runs. The '.' is itself in
      `[^\s@]`, so further dots anywhere are allowed. */
  predicate ShapeAt(s: string, a: int, d: int) {
    && 0 < a && a + 1 < d && d + 1 < |s|
    && s[a] == '@' && s[d] == '.'
    && (forall k :: 0 <= k < |s| && k != a ==> Plain(s[k]))
  }

  /** What `EMAIL_REGEX.test(s)` means: a non-empty local part, exactly one
      '@', no white space, and a dot in the domain that is neither its
      first nor its last character. */
  ghost predicate EmailPattern(s: string) {
    exists a, d :: ShapeAt(s, a, d)
  }

  /** A matching string has exactly one '@', neither first nor last, and
      no white space. */
  lemma EmailPatternFacts(s: string)
    requires EmailPattern(s)
    ensures '@' in s[1..|s| - 1]
    ensures forall k, m :: 0 <= k < |s| && 0 <= m < |s| && s[k] == '@' && s[m] == '@' ==> k == m
    ensures forall k :: 0 <= k < |s| ==> !IsSpace(s[k])
  {
    var a, d :| ShapeAt(s, a, d);
    assert s[1..|s| - 1][a - 1] == '@';
    assert forall k :: 0 <= k < |s| ==> (s[k] == '@' <==> k == a);
  }

  /** `EMAIL_REGEX.test(s)`, decided in two scans: the first checks the
      character classes and finds the single '@', the second looks for a
      dot strictly inside the domain. */
  method IsValidEmail(s: string) returns (ok: bool)
    ensures ok <==> EmailPattern(s)
  {
    var at := -1;
    var i := 0;
    while i < |s|
      invariant 0 <= i <= |s|
      invariant forall k :: 0 <= k < i ==> !IsSpace(s[k])
      invariant at == -1 ==> forall k :: 0 <= k < i ==> s[k] != '@'
      invariant at != -1 ==> 0 <= at < i && s[at] == '@' && forall k :: 0 <= k < i && k != at ==> s[k] != '@'
    {
      if s[i] == '@' {
        if at != -1 {
          forall a, d ensures !ShapeAt(s, a, d) {
            if a != at {
              assert !Plain(s[at]);
            } else {
              assert !Plain(s[i]);
            }
          }
          return false;
        }
        at := i;
      } else if IsSpace(s[i]) {
        forall a, d ensures !ShapeAt(s, a, d) {
          assert !Plain(s[i]);
        }
        return false;
      }
      i := i + 1;
    }
    if at <= 0 {
      forall a, d ensures !ShapeAt(s, a, d) {
        if 0 < a < |s| {
          assert s[a] != '@';
        }
      }
      return false;
    }
    var d := at + 2;
    while d < |s| - 1
      invariant at + 2 <= d
      invariant forall k :: at + 2 <= k < d && k < |s| - 1 ==> s[k] != '.'
    {
      if s[d] == '.' {
        assert ShapeAt(s, at, d);
        return true;
      }
      d := d + 1;
    }
    forall a, e ensures !ShapeAt(s, a, e) {
      if 0 < a < |s| && a != at {
        assert s[a] != '@';
      }
    }
    return false;
  }

  /** Some consequences of the pattern that are easy to get wrong. */
  lemma EmailPatternExamples()
    ensures EmailPattern("a@b.c")
    ensures EmailPattern("a@.b.c")
    ensures !EmailPattern("a@b.")
    ensures !EmailPattern("@b.c")
  {
    assert ShapeAt("a@b.c", 1, 3);
    assert ShapeAt("a@.b.c", 1, 4);
    forall a, d ensures !ShapeAt("a@b.", a, d) {
    }
    forall a, d ensures !ShapeAt("@b.c", a, d) {
      if 0 < a < 4 {
        assert "@b.c"[a] != '@';
      }
    }
  }

  // ---------------------------------------------------------------- CAPTCHA

  const Alphabet := "ABCDEFGHIJKLMNOPQRSTUVWXYZabcdefghijklmnopqrstuvwxyz0123456789"
  const CaptchaLength := 5

  /** A value `Math.random()` can return. */
  predicate IsDraw(r: real) {
    0.0 <= r < 1.0
  }

  /** `Math.floor(r * chars.length)`: the index whose slot of width 1/62 holds `r`. */
  function CaptchaIndex(r: real): (k: nat)
    requires IsDraw(r)
    ensures k < |Alphabet|
    ensures k as real <= r * |Alphabet| as real < k as real + 1.0
  {
    (r * |Alphabet| as real).Floor
  }

  /** `generateCaptcha`, given the five draws it makes. */
  function GenerateCaptcha(draws: seq<real>): (code: string)
    requires |draws| == CaptchaLength && forall i :: 0 <= i < |draws| ==> IsDraw(draws[i])
    ensures |code| == CaptchaLength
    ensures forall i :: 0 <= i < |code| ==> code[i] in Alphabet && code[i] == Alphabet[CaptchaIndex(draws[i])]
  {
    seq(CaptchaLength, i requires 0 <= i < CaptchaLength => Alphabet[CaptchaIndex(draws[i])])
  }

  /** The left end of slot `k` lands on character `k`. */
  lemma SlotDraw(k: nat)
    requires k < |Alphabet|
    ensures IsDraw(k as real / 62.0) && CaptchaIndex(k as real / 62.0) == k
  {
    assert |Alphabet| == 62;
    var r := k as real / 62.0;
    assert r * 62.0 == k as real;
  }

  /** A draw that produces character `c`. */
  ghost function DrawFor(c: char): (r: real)
    requires c in Alphabet
    ensures IsDraw(r) && Alphabet[CaptchaIndex(r)] == c
  {
    var k :| 0 <= k < |Alphabet| && Alphabet[k] == c;
    SlotDraw(k);
    k as real / 62.0
  }

  /** Every five-character alphanumeric code can come out of the generator. */
  lemma CaptchaReachable(code: string)
    requires |code| == CaptchaLength && forall i :: 0 <= i < |code| ==> code[i] in Alphabet
    ensures exists draws :: |draws| == CaptchaLength && (forall i :: 0 <= i < |draws| ==> IsDraw(draws[i]))
                            && GenerateCaptcha(draws) == code
  {
    var draws := seq(CaptchaLength, i requires 0 <= i < CaptchaLength => DrawFor(code[i]));
    assert GenerateCaptcha(draws) == code;
  }

  // ----------------------------------------------------------------- submit

  const InvalidEmailMessage := "Please enter a valid email address"
  const MissingPasswordMessage := "Please enter email and password"
  const CaptchaMessage := "Invalid CAPTCHA. Please try again."

  datatype Credentials = Credentials(email: string, password: string)

  /** The form state after a submit, and the credentials `onLogin` receives
      when it is called. */
  datatype Submitted = Submitted(error: string, captchaCode: string, captchaInput: string, login: Option<Credentials>)

  /** `handleSubmit`. The e-mail is trimmed, the password is not; the CAPTCHA
      answer is trimmed and compared case-sensitively. A wrong answer draws a
      new code and clears the answer. */
  method HandleSubmit(email: string, password: string, captchaInput: string, captchaCode: string, draws: seq<real>)
    returns (r: Submitted)
    requires |draws| == CaptchaLength && forall i :: 0 <= i < |draws| ==> IsDraw(draws[i])
    ensures r.login.Some? <==> EmailPattern(Trim(email)) && password != "" && Trim(captchaInput) == captchaCode
    ensures r.login.Some? ==> r.login.value == Credentials(Trim(email), password) && r.error == ""
    ensures !EmailPattern(Trim(email)) ==> r.error == InvalidEmailMessage
    ensures EmailPattern(Trim(email)) && password == "" ==> r.error == MissingPasswordMessage
    ensures EmailPattern(Trim(email)) && password != "" && Trim(captchaInput) != captchaCode ==>
      r.error == CaptchaMessage && r.captchaCode == GenerateCaptcha(draws) && r.captchaInput == ""
    ensures !(EmailPattern(Trim(email)) && password != "" && Trim(captchaInput) != captchaCode) ==>
      r.captchaCode == captchaCode && r.captchaInput == captchaInput
  {
    var trimmed := Trim(email);
    var valid := IsValidEmail(trimmed);
    if !valid {
      return Submitted(InvalidEmailMessage, captchaCode, captchaInput, None);
    }
    if password == "" {
      return Submitted(MissingPasswordMessage, captchaCode, captchaInput, None);
    }
    if Trim(captchaInput) != captchaCode {
      return Submitted(CaptchaMessage, GenerateCaptcha(draws), "", None);
    }
    return Submitted("", captchaCode, captchaInput, Some(Credentials(trimmed, password)));
  }
}
