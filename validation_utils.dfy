/** Input validation of `src/lib/utils/validationUtils.ts`. */
module ValidationUtils {
  import opened Wrappers
  import opened Text
  import opened Types

  // ---------------------------------------------------------------- e-mail

  /** A character of the class `[^\s@]`. */
  predicate IsEmailChar(c: char) {
    !IsJsWhitespace(c) && c != '@'
  }

  predicate AllEmailChars(s: string) {
    forall k :: 0 <= k < |s| ==> IsEmailChar(s[k])
  }

  /**
   * The regular expression `/^[^\s@]+@[^\s@]+\.[^\s@]+$/` matches with its
   * `@` at `a` and its `\.` at `d`: three non-empty runs of `[^\s@]`.
   */
  ghost predicate EmailMatchAt(email: string, a: int, d: int) {
    0 < a && a + 1 < d < |email| - 1 && email[a] == '@' && email[d] == '.' &&
    AllEmailChars(email[..a]) && AllEmailChars(email[a + 1..d]) && AllEmailChars(email[d + 1..])
  }

  /** The position of the first `c` in `s`, or `|s|` when there is none. */
  function IndexOf(s: string, c: char): (k: nat)
    ensures k <= |s| && (k < |s| ==> s[k] == c) && c !in s[..k]
  {
    if s == [] then 0
    else if s[0] == c then 0
    else
      var k := IndexOf(s[1..], c);
      assert s[..k + 1] == [s[0]] + s[1..][..k];
      k + 1
  }

  /** The part after the `@`: `[^\s@]+\.[^\s@]+`, a dot with a character on each side. */
  predicate IsEmailDomain(domain: string) {
    AllEmailChars(domain) && |domain| >= 3 && '.' in domain[1..|domain| - 1]
  }

  /**
   * `validateEmail`: an accepted address has at least five characters, and
   * its first and last are neither whitespace nor `@`.
   */
  function ValidateEmail(email: string): (ok: bool)
    ensures ok ==> |email| >= 5 && IsEmailChar(email[0]) && IsEmailChar(email[|email| - 1])
  {
    var a := IndexOf(email, '@');
    assert 0 < a < |email| && AllEmailChars(email[..a]) ==> email[0] == email[..a][0];
    assert a < |email| - 1 ==> email[|email| - 1] == email[a + 1..][|email| - a - 2];
    0 < a < |email| && AllEmailChars(email[..a]) && IsEmailDomain(email[a + 1..])
  }

  /** `validateEmail` is exactly the regular expression's test. */
  lemma ValidateEmailIffMatch(email: string)
    ensures ValidateEmail(email) <==> exists a, d :: EmailMatchAt(email, a, d)
  {
    if ValidateEmail(email) {
      var a, d := AcceptedEmailMatches(email);
    }
    if exists a, d :: EmailMatchAt(email, a, d) {
      var a, d :| EmailMatchAt(email, a, d);
      MatchedEmailAccepted(email, a, d);
    }
  }

  /** Where the regular expression matches an accepted address. */
  lemma AcceptedEmailMatches(email: string) returns (a: int, d: int)
    requires ValidateEmail(email)
    ensures EmailMatchAt(email, a, d)
  {
    a := IndexOf(email, '@');
    var domain := email[a + 1..];
    var q :| 0 <= q < |domain[1..|domain| - 1]| && domain[1..|domain| - 1][q] == '.';
    d := a + 2 + q;
    assert email[d] == '.';
    assert email[a + 1..d] == domain[..q + 1];
    assert email[d + 1..] == domain[q + 2..];
  }

  /** An address the regular expression matches is accepted: its `@` is the first one. */
  lemma MatchedEmailAccepted(email: string, a: int, d: int)
    requires EmailMatchAt(email, a, d)
    ensures ValidateEmail(email)
  {
    assert '@' !in email[..a];
    var first := IndexOf(email, '@');
    assert first == a by {
      assert forall k :: 0 <= k < a ==> email[k] == email[..a][k];
    }
    var domain := email[a + 1..];
    assert domain == email[a + 1..d] + ['.'] + email[d + 1..];
    assert AllEmailChars(domain);
    assert domain[1..|domain| - 1][d - a - 2] == '.';
  }

  function CountChar(s: string, c: char): nat {
    if s == [] then 0 else (if s[0] == c then 1 else 0) + CountChar(s[1..], c)
  }

  lemma {:induction false} CountCharAbsent(s: string, c: char)
    requires c !in s
    ensures CountChar(s, c) == 0
    decreases |s|
  {
    if s != [] {
      CountCharAbsent(s[1..], c);
    }
  }

  lemma {:induction false} CountCharAppend(s: string, t: string, c: char)
    ensures CountChar(s + t, c) == CountChar(s, c) + CountChar(t, c)
    decreases |s|
  {
    if s == [] {
      assert s + t == t;
    } else {
      assert (s + t)[1..] == s[1..] + t;
      CountCharAppend(s[1..], t, c);
    }
  }

  /** An accepted address has exactly one `@` and no whitespace. */
  lemma ValidEmailShape(email: string)
    requires ValidateEmail(email)
    ensures CountChar(email, '@') == 1
    ensures forall k :: 0 <= k < |email| ==> !IsJsWhitespace(email[k])
  {
    var local, domain := AcceptedParts(email);
    SplitAtCount(local, domain, '@');
    forall k | 0 <= k < |email| ensures !IsJsWhitespace(email[k]) {
      if k < |local| {
        assert email[k] == local[k];
      } else if k > |local| {
        assert email[k] == domain[k - |local| - 1];
      }
    }
  }

  /** An accepted address is two runs of `[^\s@]` around its `@`. */
  lemma AcceptedParts(email: string) returns (local: string, domain: string)
    requires ValidateEmail(email)
    ensures email == local + ['@'] + domain
    ensures AllEmailChars(local) && AllEmailChars(domain)
    ensures '@' !in local && '@' !in domain
  {
    var a := IndexOf(email, '@');
    local, domain := email[..a], email[a + 1..];
    assert '@' !in domain by {
      assert forall k :: 0 <= k < |domain| ==> IsEmailChar(domain[k]);
    }
    assert email == local + ['@'] + domain;
  }

  /** A string with `c` only between two parts free of it holds exactly one `c`. */
  lemma SplitAtCount(left: string, right: string, c: char)
    requires c !in left && c !in right
    ensures CountChar(left + [c] + right, c) == 1
  {
    CountCharAppend(left, [c], c);
    CountCharAppend(left + [c], right, c);
    CountCharAbsent(left, c);
    CountCharAbsent(right, c);
  }

  // ---------------------------------------------------------------- password

  const MinPasswordLength: nat := 8
  const PasswordTooShort: string := "パスワードは8文字以上である必要があります"

  datatype PasswordCheck = PasswordCheck(valid: bool, message: Option<string>)

  /** `validatePassword`: at least eight UTF-16 code units (JavaScript's `length`). */
  function ValidatePassword(password: string): (r: PasswordCheck)
    ensures r.valid <==> Utf16Length(password) >= MinPasswordLength
    ensures r.valid <==> r.message.None?
    ensures !r.valid ==> r.message == Some(PasswordTooShort)
  {
    if Utf16Length(password) < MinPasswordLength then PasswordCheck(false, Some(PasswordTooShort))
    else PasswordCheck(true, None)
  }

  /** Eight characters always suffice; a shorter password may pass with characters outside the BMP. */
  lemma EightCharactersSuffice(password: string)
    requires |password| >= 8
    ensures ValidatePassword(password).valid
  {
  }

  // ---------------------------------------------------------------- entry form

  const DateRequired: string := "日付は必須です"
  const ThingOneRequired: string := "1つ目の良いことを入力してください"
  const ThingTwoRequired: string := "2つ目の良いことを入力してください"
  const ThingThreeRequired: string := "3つ目の良いことを入力してください"
  const GratitudeRequired: string := "今日の感謝を入力してください"

  /** The five properties of the form, each a possible key of the errors record. */
  datatype Field = EntryDate | ThingOne | ThingTwo | ThingThree | Gratitude {
    /** The property name the errors record uses for this field. */
    function Key(): string {
      match this
      case EntryDate => "entry_date"
      case ThingOne => "thing_one"
      case ThingTwo => "thing_two"
      case ThingThree => "thing_three"
      case Gratitude => "gratitude"
    }

    function Message(): string {
      match this
      case EntryDate => DateRequired
      case ThingOne => ThingOneRequired
      case ThingTwo => ThingTwoRequired
      case ThingThree => ThingThreeRequired
      case Gratitude => GratitudeRequired
    }
  }

  /** `!s || s.trim().length === 0`: empty or all whitespace. */
  method IsBlank(s: string) returns (blank: bool)
    ensures blank <==> AllWhitespace(s)
  {
    TrimEmptyIffAllWhitespace(s);
    blank := s == "" || |Trim(s)| == 0;
  }

  /** `validateEntry`: one error per missing field, built up field by field. */
  method ValidateEntry(data: EntryFormData) returns (valid: bool, errors: map<Field, string>)
    ensures EntryDate in errors <==> data.entry_date == ""
    ensures ThingOne in errors <==> AllWhitespace(data.thing_one)
    ensures ThingTwo in errors <==> AllWhitespace(data.thing_two)
    ensures ThingThree in errors <==> AllWhitespace(data.thing_three)
    ensures Gratitude in errors <==> AllWhitespace(data.gratitude)
    ensures forall f :: f in errors ==> errors[f] == f.Message()
    ensures valid <==> |errors| == 0
  {
    errors := map[];
    var blankOne := IsBlank(data.thing_one);
    var blankTwo := IsBlank(data.thing_two);
    var blankThree := IsBlank(data.thing_three);
    var blankGratitude := IsBlank(data.gratitude);
    if data.entry_date == "" {
      errors := errors[EntryDate := EntryDate.Message()];
    }
    if blankOne {
      errors := errors[ThingOne := ThingOne.Message()];
    }
    if blankTwo {
      errors := errors[ThingTwo := ThingTwo.Message()];
    }
    if blankThree {
      errors := errors[ThingThree := ThingThree.Message()];
    }
    if blankGratitude {
      errors := errors[Gratitude := Gratitude.Message()];
    }
    valid := |errors.Keys| == 0;
  }
}
