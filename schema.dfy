/**
 * The field schema (`steps`, index.js:50-111): ten questions in a fixed
 * order, nine answered by text and checked by a validator, the last
 * answered by a photo.
 */
module Schema {
  import opened Strings

  /** The three kinds of `validate` the text steps use. */
  datatype Check =
    | MinTrimmedLength(min: nat)   // `(t || "").trim().length >= min`, in UTF-16 code units
    | BirthDatePattern             // `/^(\d{4}-\d{2}-\d{2}|\d{2}\.\d{2}\.\d{4})$/` on the trimmed text
    | PhonePattern                 // `/^\+?\d[\d\s()-]{8,}$/` on the trimmed text

  /**
   * A step: a question answered by text and checked by its validator, or
   * the closing question answered by a photo. The wording of each step's
   * question and error message is given by `Ask` and `Error`, by position.
   */
  datatype Step =
    | TextStep(key: Key, check: Check)
    | PhotoStep   // its key, "photo", is never read: the file id goes under PhotoFileId

  /**
   * The properties of a session's answers object. Only their identity
   * matters (no key is ever shown), so they are an enumeration here; the
   * comments give the property names index.js uses.
   */
  datatype Key =
    | FullName       // fullName
    | BirthDate      // birthDate
    | Phone          // phone
    | Address        // address
    | Education      // education
    | University     // university
    | Experience     // experience
    | Languages      // languages
    | Certificates   // certificates
    | PhotoFileId    // photoFileId

  const Steps: seq<Step> := [
    TextStep(FullName, MinTrimmedLength(5)),
    TextStep(BirthDate, BirthDatePattern),
    TextStep(Phone, PhonePattern),
    TextStep(Address, MinTrimmedLength(2)),
    TextStep(Education, MinTrimmedLength(2)),
    TextStep(University, MinTrimmedLength(2)),
    TextStep(Experience, MinTrimmedLength(1)),
    TextStep(Languages, MinTrimmedLength(1)),
    TextStep(Certificates, MinTrimmedLength(1)),
    PhotoStep
  ]

  /** The question of step `i` (its `ask`). */
  function Ask(i: nat): string
    requires i < |Steps|
  {
    if i == 0 then "1) ✅ <b>To‘liq ismingizni (F.I.Sh)</b> yozing:"
    else if i == 1 then "2) 🎂 <b>Tug‘ilgan sana</b> (masalan: <code>2004-05-17</code> yoki <code>17.05.2004</code>):"
    else if i == 2 then "3) 📞 <b>Telefon raqami</b> (masalan: <code>+998901234567</code>):"
    else if i == 3 then "4) 📍 <b>Yashash manzili</b> (Shahar/Tuman):"
    else if i == 4 then "5) 🎓 <b>Ma’lumotingiz</b> (masalan: Oliy / O‘rta-maxsus / O‘rta):"
    else if i == 5 then "6) 🏛 <b>Qaysi universitetni tamomlagansiz?</b>\nAgar tamomlamagan bo‘lsangiz: <code>O‘qiyapman</code> deb yozing."
    else if i == 6 then "7) 💼 <b>Oldin qaysi korxonada ishlagansiz?</b>\n(Nomi + necha yil)\nMasalan: <code>ABC MCHJ — 2 yil</code>\nAgar ishlamagan bo‘lsangiz: <code>-</code> deb yozing."
    else if i == 7 then "8) 🌍 <b>Qaysi chet tillarini bilasiz va qaysi darajada?</b>\nMasalan: <code>Ingliz — B2, Rus — B1</code>\nBo‘lmasa: <code>-</code> deb yozing."
    else if i == 8 then "9) 🏅 <b>Milliy yoki Xalqaro sertifikatlaringiz bormi?</b>\nMasalan: <code>CEFR B2 (2025), IELTS 6.0</code>\nBo‘lmasa: <code>-</code> deb yozing."
    else "10) 🖼 Endi <b>rasmingizni</b> yuboring (Photo qilib)."
  }

  /** The message a failed answer to text step `i` gets (its `error`). */
  function Error(i: nat): string
    requires i < PhotoIndex
  {
    if i == 0 then "❗️F.I.Sh ni to‘liq kiriting (kamida 5 ta belgi)."
    else if i == 1 then "❗️Sana format xato. Masalan: 2004-05-17 yoki 17.05.2004"
    else if i == 2 then "❗️Telefon raqam noto‘g‘ri. Masalan: +998901234567"
    else if i == 3 then "❗️Manzilni kiriting (kamida 2 ta belgi)."
    else if i == 4 then "❗️Ma’lumot turini kiriting."
    else if i == 5 then "❗️Universitet nomini yozing yoki `O‘qiyapman` deb yozing."
    else "❗️Ma’lumot kiriting yoki `-` yozing."
  }

  /** The index of the photo step, the last one. */
  const PhotoIndex: nat := 9

  /** The keys of the nine text answers, in question order. */
  const AnswerKeys: seq<Key> := [
    FullName, BirthDate, Phone, Address, Education,
    University, Experience, Languages, Certificates
  ]

  /** The position of a key in question order; the photo's file id comes last. */
  function KeyIndex(k: Key): nat {
    match k
    case FullName => 0
    case BirthDate => 1
    case Phone => 2
    case Address => 3
    case Education => 4
    case University => 5
    case Experience => 6
    case Languages => 7
    case Certificates => 8
    case PhotoFileId => 9
  }

  /** The schema's shape: nine text steps under the answer keys, in order and all different, then the photo step. */
  lemma StepsShape()
    ensures |Steps| == PhotoIndex + 1 && |AnswerKeys| == PhotoIndex
    ensures Steps[PhotoIndex].PhotoStep?
    ensures forall i :: 0 <= i < PhotoIndex ==> Steps[i].TextStep? && Steps[i].key == AnswerKeys[i]
    ensures forall i :: 0 <= i < |AnswerKeys| ==> KeyIndex(AnswerKeys[i]) == i
  {
  }

  /** Step `i` before the photo step is a text step under the i-th answer key, and its validator asks for something. */
  lemma TextStepAt(i: nat)
    requires i < PhotoIndex
    ensures Steps[i].TextStep? && Steps[i].key == AnswerKeys[i] && Steps[i].check != MinTrimmedLength(0)
  {
  }

  /** Only the last step takes a photo. */
  lemma PhotoStepAt(i: nat)
    requires i < |Steps|
    ensures Steps[i].PhotoStep? <==> i == PhotoIndex
  {
  }

  // ---------------------------------------------------------------- validators

  /** A character of the class `[\d\s()-]`. */
  predicate IsPhoneChar(c: char) {
    IsDigit(c) || IsSpace(c) || c == '(' || c == ')' || c == '-'
  }

  /** `\d{4}-\d{2}-\d{2}` matched against the whole string. */
  predicate IsIsoDate(s: string) {
    |s| == 10 && AllDigits(s[..4]) && s[4] == '-' && AllDigits(s[5..7]) && s[7] == '-' && AllDigits(s[8..])
  }

  /** `\d{2}\.\d{2}\.\d{4}` matched against the whole string. */
  predicate IsDottedDate(s: string) {
    |s| == 10 && AllDigits(s[..2]) && s[2] == '.' && AllDigits(s[3..5]) && s[5] == '.' && AllDigits(s[6..])
  }

  /** The birth-date pattern: either alternative, anchored at both ends. */
  predicate IsBirthDate(s: string) {
    IsIsoDate(s) || IsDottedDate(s)
  }

  /**
   * The phone pattern. The optional `+` can only be skipped when the text
   * does not start with `+`, because the `\d` that follows cannot match it.
   */
  predicate IsPhone(s: string) {
    if |s| >= 1 && s[0] == '+' then IsPhoneBody(s[1..]) else IsPhoneBody(s)
  }

  /** `\d[\d\s()-]{8,}` matched against the whole string. */
  predicate IsPhoneBody(b: string) {
    |b| >= 9 && IsDigit(b[0]) && forall i :: 1 <= i < |b| ==> IsPhoneChar(b[i])
  }

  /** The `validate` of a text step, applied to the raw text of the answer. */
  predicate Validate(check: Check, t: string) {
    match check
    case MinTrimmedLength(min) => Utf16Length(Trim(t)) >= min
    case BirthDatePattern => IsBirthDate(Trim(t))
    case PhonePattern => IsPhone(Trim(t))
  }

  // ---------------------------------------------------------------- reference readings of the patterns

  /** A mask in which `D` stands for any digit and every other character for itself. */
  predicate FitsMask(mask: string, s: string) {
    |s| == |mask| && forall i :: 0 <= i < |s| ==> if mask[i] == 'D' then IsDigit(s[i]) else s[i] == mask[i]
  }

  /** The birth-date pattern accepts exactly the strings shaped `DDDD-DD-DD` or `DD.DD.DDDD`. */
  lemma BirthDateIsMask(s: string)
    ensures IsBirthDate(s) <==> FitsMask("DDDD-DD-DD", s) || FitsMask("DD.DD.DDDD", s)
  {
    if |s| == 10 {
      assert IsIsoDate(s) <==> FitsMask("DDDD-DD-DD", s) by {
        if FitsMask("DDDD-DD-DD", s) {
          assert forall i :: 0 <= i < 4 ==> s[..4][i] == s[i];
          assert forall i :: 0 <= i < 2 ==> s[5..7][i] == s[5 + i] && s[8..][i] == s[8 + i];
        }
        if IsIsoDate(s) {
          assert forall i :: 0 <= i < 4 ==> s[..4][i] == s[i];
          assert forall i :: 0 <= i < 2 ==> s[5..7][i] == s[5 + i] && s[8..][i] == s[8 + i];
        }
      }
      assert IsDottedDate(s) <==> FitsMask("DD.DD.DDDD", s) by {
        if FitsMask("DD.DD.DDDD", s) {
          assert forall i :: 0 <= i < 2 ==> s[..2][i] == s[i] && s[3..5][i] == s[3 + i];
          assert forall i :: 0 <= i < 4 ==> s[6..][i] == s[6 + i];
        }
        if IsDottedDate(s) {
          assert forall i :: 0 <= i < 2 ==> s[..2][i] == s[i] && s[3..5][i] == s[3 + i];
          assert forall i :: 0 <= i < 4 ==> s[6..][i] == s[6 + i];
        }
      }
    }
  }

  /**
   * The phone pattern read as a regular expression: a match either takes
   * the optional `+` (`plus` = 1) or skips it (`plus` = 0), then needs a
   * digit and at least eight characters of the class.
   */
  predicate PhoneMatch(s: string, plus: nat) {
    plus <= 1 && |s| >= plus + 9
    && (plus == 1 ==> s[0] == '+')
    && IsDigit(s[plus])
    && forall i :: plus < i < |s| ==> IsPhoneChar(s[i])
  }

  lemma PhoneIsPattern(s: string)
    ensures IsPhone(s) <==> PhoneMatch(s, 0) || PhoneMatch(s, 1)
  {
    if |s| >= 1 && s[0] == '+' {
      var body := s[1..];
      assert !PhoneMatch(s, 0);
      if IsPhone(s) {
        forall i | 1 < i < |s| ensures IsPhoneChar(s[i]) {
          assert s[i] == body[i - 1];
        }
      }
      if PhoneMatch(s, 1) {
        forall i | 1 <= i < |body| ensures IsPhoneChar(body[i]) {
          assert body[i] == s[i + 1];
        }
      }
    }
  }

  /** The examples the date and phone prompts give are accepted; the look-alikes are not. */
  lemma PatternExamples()
    ensures IsBirthDate("2004-05-17") && IsBirthDate("17.05.2004")
    ensures !IsBirthDate("2004/05/17") && !IsBirthDate("17-05-2004")
    ensures IsPhone("+998901234567") && !IsPhone("123")
  {
    assert "2004-05-17"[..4] == "2004" && "2004-05-17"[5..7] == "05" && "2004-05-17"[8..] == "17";
    assert "17.05.2004"[..2] == "17" && "17.05.2004"[3..5] == "05" && "17.05.2004"[6..] == "2004";
    var body := "+998901234567"[1..];
    assert body == "998901234567";
    assert forall i :: 1 <= i < |body| ==> IsDigit(body[i]);
  }

  /** What the validators of the first three steps demand, in terms of the trimmed answer. */
  lemma Thresholds(t: string)
    ensures Steps[0].TextStep? && Steps[1].TextStep? && Steps[2].TextStep?
    ensures Validate(Steps[0].check, t) <==> Utf16Length(Trim(t)) >= 5
    ensures Validate(Steps[1].check, t) <==> IsBirthDate(Trim(t))
    ensures Validate(Steps[2].check, t) <==> IsPhone(Trim(t))
  {
  }

  /** Address, education and university check only that the trimmed answer has two UTF-16 code units. */
  lemma ShortThresholds(t: string)
    ensures forall i :: 3 <= i <= 5 ==> Steps[i].TextStep? && (Validate(Steps[i].check, t) <==> Utf16Length(Trim(t)) >= 2)
  {
  }

  /** Experience, languages and certificates check only that the trimmed answer is not empty. */
  lemma NonEmptyThresholds(t: string)
    ensures forall i :: 6 <= i <= 8 ==> Steps[i].TextStep? && (Validate(Steps[i].check, t) <==> |Trim(t)| >= 1)
  {
  }

  /**
   * Lengths are counted in UTF-16 code units, as JavaScript counts them: a
   * character outside the Basic Multilingual Plane counts twice, so three
   * emoji make a full name and one makes an address, while three letters
   * do not make a full name.
   */
  lemma LengthInCodeUnits()
    ensures Validate(Steps[0].check, "😀😀😀") && !Validate(Steps[0].check, "abc")
    ensures Validate(Steps[3].check, "😀") && !Validate(Steps[3].check, "a")
  {
    TrimOfTrimmed("😀😀😀");
    TrimOfTrimmed("abc");
    TrimOfTrimmed("😀");
    TrimOfTrimmed("a");
    assert Utf16Length("😀😀😀") == 6;
  }

  /**
   * Validators read the trimmed text, so the answer the engine stores (the
   * trimmed text) passes the same validator as the answer that was typed.
   */
  lemma StoredAnswerValid(check: Check, t: string)
    ensures Validate(check, Trim(t)) <==> Validate(check, t)
  {
    TrimIdempotent(t);
  }

  /** Every validator rejects an answer that is white space only. */
  lemma BlankRejected(check: Check, t: string)
    requires AllSpace(t)
    requires check != MinTrimmedLength(0)
    ensures !Validate(check, t)
  {
    TrimEmptyIffAllSpace(t);
    EmptyRejected(check);
  }

  /** Every validator rejects the empty answer. */
  lemma EmptyRejected(check: Check)
    requires check != MinTrimmedLength(0)
    ensures !Validate(check, [])
  {
  }
}
