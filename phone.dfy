/**
 * The Chilean mobile-number rules shared by the "Teléfono" and "Teléfono Adicional"
 * fields: the normaliser run on every keystroke, the validators and the digits sent
 * on submission.
 */
module Phone {
  import opened Wrappers
  import opened Chars

  /** The digits a Chilean mobile number has after the +56 prefix. */
  const MobileLength: nat := 9

  const LengthMessage: string := "El número debe tener 9 dígitos"
  const AdditionalLengthMessage: string := "El número adicional debe tener 9 dígitos"
  const PrefixMessage: string := "El número debe comenzar con 9"
  const AdjustNotice: string := "Se ha ajustado el primer dígito a 9 (formato celular chileno)"

  /** `replace(/\D/g, '')`: every character that is not an ASCII digit is removed. */
  function KeepDigits(s: string): string
  {
    if s == [] then [] else (if IsDigit(s[0]) then [s[0]] else []) + KeepDigits(s[1..])
  }

  /** Only digits remain, in their order, and never more than were given. */
  lemma {:induction false} KeepDigitsShape(s: string)
    ensures AllDigits(KeepDigits(s)) && |KeepDigits(s)| <= |s|
  {
    if s != [] {
      KeepDigitsShape(s[1..]);
    }
  }

  /** A string of digits is left as it is. */
  lemma {:induction false} KeepDigitsOfDigits(s: string)
    requires AllDigits(s)
    ensures KeepDigits(s) == s
  {
    if s != [] {
      KeepDigitsOfDigits(s[1..]);
      assert [s[0]] + s[1..] == s;
    }
  }

  /** `s.slice(0, n)`. */
  function Take(s: string, n: nat): (r: string)
    ensures |r| == if |s| <= n then |s| else n
    ensures r == s[..|r|]
  {
    if |s| > n then s[..n] else s
  }

  /** A mobile number: nine digits starting with 9. */
  predicate IsMobile(d: string)
  {
    |d| == MobileLength && d[0] == '9'
  }

  /** Whether the normaliser has to replace the first digit. */
  predicate Corrects(s: string)
  {
    var d := KeepDigits(s);
    d != [] && d[0] != '9'
  }

  /**
   * What the normaliser leaves of any input: the first nine of its digits, the first of
   * them forced to 9.
   */
  function PhoneNormalized(s: string): (v: string)
    ensures |v| == if |KeepDigits(s)| <= MobileLength then |KeepDigits(s)| else MobileLength
    ensures AllDigits(v)
    ensures v != [] ==> v[0] == '9' && v[1..] == KeepDigits(s)[1..|v|]
  {
    KeepDigitsShape(s);
    var d := Take(KeepDigits(s), MobileLength);
    if d != [] && d[0] != '9' then "9" + d[1..] else d
  }

  /**
   * The `onChange` normaliser: strips non-digits, truncates to nine, forces a leading 9.
   * `corrected` tells whether the first digit had to be replaced.
   */
  method NormalizePhone(input: string) returns (v: string, corrected: bool)
    ensures v == PhoneNormalized(input)
    ensures corrected <==> Corrects(input)
  {
    v := input;
    v := KeepDigits(v);
    if |v| > 9 {
      v := v[..9];
    }
    corrected := false;
    if |v| > 0 && v[0] != '9' {
      v := "9" + v[1..];
      corrected := true;
    }
  }

  /** Normalising a normalised number changes nothing, and never needs a correction. */
  lemma NormalizeIdempotent(s: string)
    ensures PhoneNormalized(PhoneNormalized(s)) == PhoneNormalized(s)
    ensures !Corrects(PhoneNormalized(s))
  {
    var v := PhoneNormalized(s);
    KeepDigitsOfDigits(v);
    if v != [] {
      assert v == "9" + v[1..];
    }
  }

  /** The validator of "Teléfono": nine digits starting with 9 once non-digits are removed. */
  function ValidatePhone(v: string): (r: Validation)
    ensures r == Valid <==> IsMobile(KeepDigits(v))
    ensures r.Invalid? ==> r.message == (if |KeepDigits(v)| != MobileLength then LengthMessage else PrefixMessage)
  {
    var cleaned := KeepDigits(v);
    if |cleaned| != 9 then Invalid(LengthMessage)
    else if cleaned[0] != '9' then Invalid(PrefixMessage)
    else Valid
  }

  /** The validator of "Teléfono Adicional": empty is accepted, anything else as for "Teléfono". */
  function ValidateAdditionalPhone(v: string): (r: Validation)
    ensures r == Valid <==> v == "" || IsMobile(KeepDigits(v))
    ensures r.Invalid? ==> r.message == (if |KeepDigits(v)| != MobileLength then AdditionalLengthMessage else PrefixMessage)
  {
    if v == "" then Valid
    else
      var cleaned := KeepDigits(v);
      if |cleaned| != 9 then Invalid(AdditionalLengthMessage)
      else if cleaned[0] != '9' then Invalid(PrefixMessage)
      else Valid
  }

  /**
   * Whatever is typed, the normalised field is accepted exactly when at least nine digits
   * were typed, and it can never fail for its first digit.
   */
  lemma NormalizedValidation(s: string)
    ensures ValidatePhone(PhoneNormalized(s)) == Valid <==> |KeepDigits(s)| >= MobileLength
    ensures ValidatePhone(PhoneNormalized(s)) != Invalid(PrefixMessage)
    ensures ValidateAdditionalPhone(PhoneNormalized(s)) == Valid <==>
              KeepDigits(s) == [] || |KeepDigits(s)| >= MobileLength
  {
    KeepDigitsOfDigits(PhoneNormalized(s));
  }

  /** The digits sent for either phone field: `replace(/\D/g, '').slice(0, 9)`. */
  function SubmittedDigits(v: string): (r: string)
    ensures AllDigits(r) && |r| <= MobileLength
  {
    KeepDigitsShape(v);
    Take(KeepDigits(v), MobileLength)
  }

  /** A normalised field is sent exactly as it is shown. */
  lemma SubmitNormalized(s: string)
    ensures SubmittedDigits(PhoneNormalized(s)) == PhoneNormalized(s)
  {
    KeepDigitsOfDigits(PhoneNormalized(s));
  }

  /** A field that passed its validator is sent as its nine digits. */
  lemma SubmitValid(v: string)
    requires ValidatePhone(v) == Valid
    ensures SubmittedDigits(v) == KeepDigits(v) && IsMobile(SubmittedDigits(v))
  {
  }

  /**
   * A phone input of the form. The notice about the forced 9 is shown once per page:
   * `autoCorrected` is the flag the field keeps for that, `notices` the notices shown.
   */
  class PhoneInput {
    var value: string
    var autoCorrected: bool
    var notices: seq<string>

    /** The notice has been shown exactly when the flag is set, and at most once. */
    predicate Valid()
      reads this
    {
      notices == (if autoCorrected then [AdjustNotice] else [])
    }

    constructor ()
      ensures Valid() && value == "" && !autoCorrected
    {
      value := "";
      autoCorrected := false;
      notices := [];
    }

    /** The field's `onChange`: normalises what was typed and shows the notice the first time a 9 is forced. */
    method OnChange(input: string)
      requires Valid()
      modifies this
      ensures Valid()
      ensures value == PhoneNormalized(input)
      ensures autoCorrected == (old(autoCorrected) || Corrects(input))
      ensures notices == old(notices) + (if Corrects(input) && !old(autoCorrected) then [AdjustNotice] else [])
    {
      var v, corrected := NormalizePhone(input);
      if corrected && !autoCorrected {
        notices := notices + [AdjustNotice];
        autoCorrected := true;
      }
      value := v;
    }
  }
}
