/** The settings screen's helpers (`SettingsScreen.tsx`): the company
    document (CPF or CNPJ) kept as at most 14 digits and shown with its
    punctuation, the logo source, and the factor check that gates saving. */
module SettingsScreen {
  import opened Wrappers
  import opened Text
  import opened Format
  import opened Domain
  import opened Settings

  // ---------------------------------------------------------------------
  // Strings

  /** `replace(/\D/g, '')`: the ASCII digits, in order. */
  function KeepDigits(s: string): (r: string)
    ensures AllDigits(r) && |r| <= |s|
  {
    if s == [] then []
    else (if IsDigit(s[0]) then [s[0]] else []) + KeepDigits(s[1..])
  }

  lemma {:induction false} KeepDigitsAppend(a: string, b: string)
    ensures KeepDigits(a + b) == KeepDigits(a) + KeepDigits(b)
    decreases |a|
  {
    if a != [] {
      assert (a + b)[1..] == a[1..] + b;
      KeepDigitsAppend(a[1..], b);
    } else {
      assert a + b == b;
    }
  }

  /** A string of digits keeps all of them. */
  lemma {:induction false} KeepDigitsOfDigits(s: string)
    requires AllDigits(s)
    ensures KeepDigits(s) == s
    decreases |s|
  {
    if s != [] {
      KeepDigitsOfDigits(s[1..]);
      assert [s[0]] + s[1..] == s;
    }
  }

  /** `slice(lo, hi)` with 0 <= lo <= hi: the part of `s` between the two
      positions, each cut back to the length of `s`. */
  function Slice(s: string, lo: nat, hi: nat): (r: string)
    requires lo <= hi
    ensures |r| == (if |s| <= lo then 0 else if hi < |s| then hi - lo else |s| - lo)
  {
    if |s| <= lo then [] else s[lo..if hi < |s| then hi else |s|]
  }

  /** Two adjacent slices make the slice that spans them. */
  lemma SliceJoin(s: string, a: nat, b: nat, c: nat)
    requires a <= b <= c
    ensures Slice(s, a, b) + Slice(s, b, c) == Slice(s, a, c)
  {
    if |s| > a && |s| > b {
      var cb := if c < |s| then c else |s|;
      var bb := if b < |s| then b else |s|;
      assert s[a..bb] + s[bb..cb] == s[a..cb];
    }
  }

  // ---------------------------------------------------------------------
  // The company document

  /** `normalizeCompanyDocumentDigits`: the first 14 digits of the input,
      in order, and nothing else. */
  function NormalizeDocumentDigits(value: string): (r: string)
    ensures AllDigits(r)
    ensures |r| == if |KeepDigits(value)| < 14 then |KeepDigits(value)| else 14
    ensures r == KeepDigits(value)[..|r|]
  {
    Slice(KeepDigits(value), 0, 14)
  }

  /** Normalising a normalised document changes nothing. */
  lemma NormalizeDocumentIdempotent(value: string)
    ensures NormalizeDocumentDigits(NormalizeDocumentDigits(value)) == NormalizeDocumentDigits(value)
  {
    KeepDigitsOfDigits(NormalizeDocumentDigits(value));
  }

  /** A group with the separator in front of it, or nothing for an empty
      group (`${part ? `.${part}` : ''}`). */
  function Group(sep: char, part: string): string {
    if part == [] then [] else [sep] + part
  }

  /** `formatCpf`: up to 11 digits as 000.000.000-00. */
  function FormatCpf(digits: string): string {
    var base := Slice(digits, 0, 11);
    Slice(base, 0, 3) + Group('.', Slice(base, 3, 6)) + Group('.', Slice(base, 6, 9)) + Group('-', Slice(base, 9, 11))
  }

  /** `formatCnpj`: up to 14 digits as 00.000.000/0000-00. */
  function FormatCnpj(digits: string): string {
    var base := Slice(digits, 0, 14);
    Slice(base, 0, 2) + Group('.', Slice(base, 2, 5)) + Group('.', Slice(base, 5, 8))
      + Group('/', Slice(base, 8, 12)) + Group('-', Slice(base, 12, 14))
  }

  /** `formatCompanyDocument`: nothing without digits, the CPF layout for
      up to 11 digits, the CNPJ layout for 12 to 14. */
  function FormatCompanyDocument(value: string): string {
    var digits := NormalizeDocumentDigits(value);
    if digits == [] then []
    else if |digits| <= 11 then FormatCpf(digits)
    else FormatCnpj(digits)
  }

  /** 1 when the group is present, 0 otherwise: the separators there are. */
  function Present(part: string): nat {
    if part == [] then 0 else 1
  }

  lemma GroupDigits(sep: char, part: string)
    requires !IsDigit(sep) && AllDigits(part)
    ensures KeepDigits(Group(sep, part)) == part
    ensures |Group(sep, part)| == |part| + Present(part)
  {
    if part != [] {
      KeepDigitsAppend([sep], part);
      KeepDigitsOfDigits(part);
    }
  }

  lemma SliceDigits(s: string, lo: nat, hi: nat)
    requires lo <= hi && AllDigits(s)
    ensures AllDigits(Slice(s, lo, hi))
  {
    var r := Slice(s, lo, hi);
    forall k | 0 <= k < |r|
      ensures IsDigit(r[k])
    {
      assert r[k] == s[lo + k];
    }
  }

  /** The CPF layout holds the digits it is given, one separator per
      present group after the first. */
  lemma CpfDigits(d: string)
    requires AllDigits(d) && |d| <= 11
    ensures KeepDigits(FormatCpf(d)) == d
    ensures |FormatCpf(d)| == |d| + Present(Slice(d, 3, 6)) + Present(Slice(d, 6, 9)) + Present(Slice(d, 9, 11))
  {
    var base := Slice(d, 0, 11);
    assert base == d;
    var p1, p2, p3, p4 := Slice(d, 0, 3), Slice(d, 3, 6), Slice(d, 6, 9), Slice(d, 9, 11);
    SliceDigits(d, 0, 3); SliceDigits(d, 3, 6); SliceDigits(d, 6, 9); SliceDigits(d, 9, 11);
    GroupDigits('.', p2); GroupDigits('.', p3); GroupDigits('-', p4);
    KeepDigitsOfDigits(p1);
    KeepDigitsAppend(p1, Group('.', p2));
    KeepDigitsAppend(p1 + Group('.', p2), Group('.', p3));
    KeepDigitsAppend(p1 + Group('.', p2) + Group('.', p3), Group('-', p4));
    SliceJoin(d, 0, 3, 6); SliceJoin(d, 0, 6, 9); SliceJoin(d, 0, 9, 11);
  }

  /** The CNPJ layout holds the digits it is given, one separator per
      present group after the first. */
  lemma CnpjDigits(d: string)
    requires AllDigits(d) && |d| <= 14
    ensures KeepDigits(FormatCnpj(d)) == d
    ensures |FormatCnpj(d)| == |d| + Present(Slice(d, 2, 5)) + Present(Slice(d, 5, 8))
                                   + Present(Slice(d, 8, 12)) + Present(Slice(d, 12, 14))
  {
    var base := Slice(d, 0, 14);
    assert base == d;
    var p1, p2, p3, p4, p5 := Slice(d, 0, 2), Slice(d, 2, 5), Slice(d, 5, 8), Slice(d, 8, 12), Slice(d, 12, 14);
    SliceDigits(d, 0, 2); SliceDigits(d, 2, 5); SliceDigits(d, 5, 8); SliceDigits(d, 8, 12); SliceDigits(d, 12, 14);
    GroupDigits('.', p2); GroupDigits('.', p3); GroupDigits('/', p4); GroupDigits('-', p5);
    KeepDigitsOfDigits(p1);
    KeepDigitsAppend(p1, Group('.', p2));
    KeepDigitsAppend(p1 + Group('.', p2), Group('.', p3));
    KeepDigitsAppend(p1 + Group('.', p2) + Group('.', p3), Group('/', p4));
    KeepDigitsAppend(p1 + Group('.', p2) + Group('.', p3) + Group('/', p4), Group('-', p5));
    SliceJoin(d, 0, 2, 5); SliceJoin(d, 0, 5, 8); SliceJoin(d, 0, 8, 12); SliceJoin(d, 0, 12, 14);
  }

  /** Stripping the punctuation from the shown document gives back the
      stored digits, and the shown document fits the field's 18
      characters. */
  lemma FormatCompanyDocumentDigits(value: string)
    ensures KeepDigits(FormatCompanyDocument(value)) == NormalizeDocumentDigits(value)
    ensures |FormatCompanyDocument(value)| <= 18
    ensures FormatCompanyDocument(value) == [] <==> KeepDigits(value) == []
  {
    var d := NormalizeDocumentDigits(value);
    if d != [] {
      if |d| <= 11 {
        CpfDigits(d);
      } else {
        CnpjDigits(d);
      }
    }
  }

  /** A full CPF, laid out. */
  lemma FullCpf(d: string)
    requires AllDigits(d) && |d| == 11
    ensures FormatCpf(d) == d[..3] + "." + d[3..6] + "." + d[6..9] + "-" + d[9..]
  {
    assert Slice(d, 0, 11) == d;
    assert Slice(d, 0, 3) == d[..3] && Slice(d, 3, 6) == d[3..6];
    assert Slice(d, 6, 9) == d[6..9] && Slice(d, 9, 11) == d[9..];
  }

  /** A full CNPJ, laid out. */
  lemma FullCnpj(d: string)
    requires AllDigits(d) && |d| == 14
    ensures FormatCnpj(d) == d[..2] + "." + d[2..5] + "." + d[5..8] + "/" + d[8..12] + "-" + d[12..]
  {
    assert Slice(d, 0, 14) == d;
    assert Slice(d, 0, 2) == d[..2] && Slice(d, 2, 5) == d[2..5] && Slice(d, 5, 8) == d[5..8];
    assert Slice(d, 8, 12) == d[8..12] && Slice(d, 12, 14) == d[12..];
  }

  // ---------------------------------------------------------------------
  // The logo

  /** An image source: a URI. */
  datatype ImageSource = ImageSource(uri: string)

  /** `resolveLogoSource`: no image for a blank value, otherwise the
      trimmed value as the URI. */
  function ResolveLogoSource(rawValue: string): (r: Option<ImageSource>)
    ensures r.None? <==> AllSpace(rawValue)
    ensures r.Some? ==> r.value.uri == Trim(rawValue) && r.value.uri != []
  {
    TrimEmptyIffAllSpace(rawValue);
    if Trim(rawValue) == [] then None else Some(ImageSource(Trim(rawValue)))
  }

  /** The URI of a shown logo needs no more trimming. */
  lemma ResolveLogoTrimmed(rawValue: string)
    ensures ResolveLogoSource(rawValue).Some? ==> ResolveLogoSource(ResolveLogoSource(rawValue).value.uri) == ResolveLogoSource(rawValue)
  {
    TrimIdempotent(rawValue);
    TrimEmptyIffAllSpace(Trim(rawValue));
  }

  // ---------------------------------------------------------------------
  // Saving

  /** The screen's form: the factors as typed, the other fields as chosen,
      the document as digits. */
  datatype SettingsForm = SettingsForm(
    weeklyFactor: string,
    fortnightlyFactor: string,
    monthlyFactor: string,
    currency: CurrencyCode,
    companyName: string,
    companyDocument: string,
    companyLogoUri: string,
    rentalStartReminder: ReminderOption,
    rentalEndReminder: ReminderOption)

  /** `onSave`: nothing is saved unless all three factors read as positive
      decimals; otherwise the settings handed to saveSettings, with the
      document shown formatted. */
  function SettingsToSave(form: SettingsForm): (r: Option<AppSettings>)
    ensures r.Some? <==>
      ParseDecimalInput(form.weeklyFactor) > 0.0 && ParseDecimalInput(form.fortnightlyFactor) > 0.0
      && ParseDecimalInput(form.monthlyFactor) > 0.0
    ensures r.Some? ==> PositiveRules(r.value.pricingRules)
    ensures r.Some? ==>
              r.value.pricingRules ==
              PricingRules(ParseDecimalInput(form.weeklyFactor), ParseDecimalInput(form.fortnightlyFactor),
                           ParseDecimalInput(form.monthlyFactor))
  {
    var weekly := ParseDecimalInput(form.weeklyFactor);
    var fortnightly := ParseDecimalInput(form.fortnightlyFactor);
    var monthly := ParseDecimalInput(form.monthlyFactor);
    if weekly <= 0.0 || fortnightly <= 0.0 || monthly <= 0.0 then None
    else Some(AppSettings(
      PricingRules(weekly, fortnightly, monthly),
      form.currency,
      form.companyName,
      FormatCompanyDocument(form.companyDocument),
      form.companyLogoUri,
      form.rentalStartReminder,
      form.rentalEndReminder))
  }

  /** The document saved holds the form's digits, at most 14 of them. */
  lemma SavedDocument(form: SettingsForm)
    requires SettingsToSave(form).Some?
    ensures KeepDigits(SettingsToSave(form).value.companyDocument) == NormalizeDocumentDigits(form.companyDocument)
    ensures |SettingsToSave(form).value.companyDocument| <= 18
  {
    FormatCompanyDocumentDigits(form.companyDocument);
  }
}
