/** The pure helpers of the rental PDF template (`pdfTemplate.ts`): HTML
    escaping of user text, the file-name token made from a client's name,
    the document's labels and file name, and the choice of what each
    optional field shows. */
module PdfTemplate {
  import opened Wrappers
  import opened Text
  import opened Format
  import opened Domain

  // ---------------------------------------------------------------------
  // HTML escaping

  /** `replace(/c/g, rep)`: every occurrence of `c` replaced by `rep`. */
  function ReplaceAllBy(s: string, c: char, rep: string): string {
    if s == [] then [] else (if s[0] == c then rep else [s[0]]) + ReplaceAllBy(s[1..], c, rep)
  }

  lemma {:induction false} ReplaceAllByAppend(a: string, b: string, c: char, rep: string)
    ensures ReplaceAllBy(a + b, c, rep) == ReplaceAllBy(a, c, rep) + ReplaceAllBy(b, c, rep)
    decreases |a|
  {
    if a == [] {
      assert a + b == b;
    } else {
      assert (a + b)[1..] == a[1..] + b;
      ReplaceAllByAppend(a[1..], b, c, rep);
    }
  }

  lemma {:induction false} ReplaceAllByAbsent(s: string, c: char, rep: string)
    requires forall k :: 0 <= k < |s| ==> s[k] != c
    ensures ReplaceAllBy(s, c, rep) == s
    decreases |s|
  {
    if s != [] {
      ReplaceAllByAbsent(s[1..], c, rep);
      assert [s[0]] + s[1..] == s;
    }
  }

  lemma ReplaceOne(c: char, d: char, rep: string)
    ensures ReplaceAllBy([c], d, rep) == if c == d then rep else [c]
  {
    assert [c][1..] == [];
  }

  /** `escapeHtml`: the five replacements, '&' first. */
  function EscapeHtml(value: string): string {
    ReplaceAllBy(ReplaceAllBy(ReplaceAllBy(ReplaceAllBy(ReplaceAllBy(
      value, '&', "&amp;"), '<', "&lt;"), '>', "&gt;"), '\"', "&quot;"), '\'', "&#39;")
  }

  /** The characters that would end a text node or an attribute. */
  predicate Markup(c: char) {
    c == '<' || c == '>' || c == '\"' || c == '\''
  }

  /** The characters escapeHtml rewrites. */
  predicate Special(c: char) {
    c == '&' || Markup(c)
  }

  /** The entity of each special character; any other stands for itself. */
  function EscapeChar(c: char): (r: string)
    ensures forall k :: 0 <= k < |r| ==> !Markup(r[k])
    ensures !Special(c) ==> r == [c]
    ensures r != [] && (r[0] == '&' <==> Special(c))
  {
    match c
    case '&' => "&amp;"
    case '<' => "&lt;"
    case '>' => "&gt;"
    case '\"' => "&quot;"
    case '\'' => "&#39;"
    case _ => [c]
  }

  /** Escaping character by character: the reference for escapeHtml. */
  function EscapeEach(s: string): (r: string)
    ensures forall k :: 0 <= k < |r| ==> !Markup(r[k])
  {
    if s == [] then [] else EscapeChar(s[0]) + EscapeEach(s[1..])
  }

  /** The replacements of '<', '>', '"' and '\'' leave text without
      those characters alone. */
  lemma MarkupFree(e: string)
    requires forall k :: 0 <= k < |e| ==> !Markup(e[k])
    ensures ReplaceAllBy(e, '<', "&lt;") == e && ReplaceAllBy(e, '>', "&gt;") == e
    ensures ReplaceAllBy(e, '\"', "&quot;") == e && ReplaceAllBy(e, '\'', "&#39;") == e
  {
    ReplaceAllByAbsent(e, '<', "&lt;");
    ReplaceAllByAbsent(e, '>', "&gt;");
    ReplaceAllByAbsent(e, '\"', "&quot;");
    ReplaceAllByAbsent(e, '\'', "&#39;");
  }

  /** On one character the chained replacements give its entity: the
      step that matches writes the entity, and no later step finds
      anything in it. */
  lemma EscapeHtmlChar(c: char)
    ensures EscapeHtml([c]) == EscapeChar(c)
  {
    var e := EscapeChar(c);
    MarkupFree(e);
    ReplaceOne(c, '&', "&amp;");
    if c != '&' {
      ReplaceOne(c, '<', "&lt;");
      if c != '<' {
        ReplaceOne(c, '>', "&gt;");
        if c != '>' {
          ReplaceOne(c, '\"', "&quot;");
          if c != '\"' {
            ReplaceOne(c, '\'', "&#39;");
          }
        }
      }
    }
  }

  lemma EscapeHtmlAppend(a: string, b: string)
    ensures EscapeHtml(a + b) == EscapeHtml(a) + EscapeHtml(b)
  {
    var a1, b1 := ReplaceAllBy(a, '&', "&amp;"), ReplaceAllBy(b, '&', "&amp;");
    ReplaceAllByAppend(a, b, '&', "&amp;");
    var a2, b2 := ReplaceAllBy(a1, '<', "&lt;"), ReplaceAllBy(b1, '<', "&lt;");
    ReplaceAllByAppend(a1, b1, '<', "&lt;");
    var a3, b3 := ReplaceAllBy(a2, '>', "&gt;"), ReplaceAllBy(b2, '>', "&gt;");
    ReplaceAllByAppend(a2, b2, '>', "&gt;");
    var a4, b4 := ReplaceAllBy(a3, '\"', "&quot;"), ReplaceAllBy(b3, '\"', "&quot;");
    ReplaceAllByAppend(a3, b3, '\"', "&quot;");
    ReplaceAllByAppend(a4, b4, '\'', "&#39;");
  }

  /** The chained replacements escape each character on its own: no
      entity written by one step is rewritten by a later one, because '&'
      goes first. */
  lemma {:induction false} EscapeHtmlIsEach(s: string)
    ensures EscapeHtml(s) == EscapeEach(s)
    decreases |s|
  {
    if s != [] {
      assert s == [s[0]] + s[1..];
      EscapeHtmlAppend([s[0]], s[1..]);
      EscapeHtmlChar(s[0]);
      EscapeHtmlIsEach(s[1..]);
    }
  }

  /** escapeHtml leaves none of '<', '>', '"' and '\'' in its output. */
  lemma EscapeHtmlNoMarkup(s: string)
    ensures forall k :: 0 <= k < |EscapeHtml(s)| ==> !Markup(EscapeHtml(s)[k])
  {
    EscapeHtmlIsEach(s);
  }

  /** Text without special characters is left as it is. */
  lemma EscapeHtmlPlain(s: string)
    requires forall k :: 0 <= k < |s| ==> !Special(s[k])
    ensures EscapeHtml(s) == s
  {
    ReplaceAllByAbsent(s, '&', "&amp;");
    ReplaceAllByAbsent(s, '<', "&lt;");
    ReplaceAllByAbsent(s, '>', "&gt;");
    ReplaceAllByAbsent(s, '\"', "&quot;");
    ReplaceAllByAbsent(s, '\'', "&#39;");
  }

  /** What a browser reads back: the five entities decoded, every other
      character kept. */
  function Unescape(t: string): string
    decreases |t|
  {
    if t == [] then []
    else if StartsWith(t, "&amp;") then "&" + Unescape(t[5..])
    else if StartsWith(t, "&lt;") then "<" + Unescape(t[4..])
    else if StartsWith(t, "&gt;") then ">" + Unescape(t[4..])
    else if StartsWith(t, "&quot;") then "\"" + Unescape(t[6..])
    else if StartsWith(t, "&#39;") then "'" + Unescape(t[5..])
    else [t[0]] + Unescape(t[1..])
  }

  /** Text whose every '&' begins one of the five entities and which holds
      no other special character. */
  predicate WellEscaped(t: string)
    decreases |t|
  {
    if t == [] then true
    else if StartsWith(t, "&amp;") || StartsWith(t, "&#39;") then WellEscaped(t[5..])
    else if StartsWith(t, "&lt;") || StartsWith(t, "&gt;") then WellEscaped(t[4..])
    else if StartsWith(t, "&quot;") then WellEscaped(t[6..])
    else !Special(t[0]) && WellEscaped(t[1..])
  }

  /** Which entity, if any, text that starts with an escaped character
      starts with, and what follows it. */
  lemma EntityPrefix(c: char, rest: string)
    ensures var t := EscapeChar(c) + rest;
      t != [] && (StartsWith(t, "&amp;") <==> c == '&') && (StartsWith(t, "&lt;") <==> c == '<')
      && (StartsWith(t, "&gt;") <==> c == '>') && (StartsWith(t, "&quot;") <==> c == '\"')
      && (StartsWith(t, "&#39;") <==> c == '\'')
      && t[|EscapeChar(c)|..] == rest && (!Special(c) ==> t[0] == c && |EscapeChar(c)| == 1)
  {
    var t := EscapeChar(c) + rest;
    assert t[..|EscapeChar(c)|] == EscapeChar(c);
    if !Special(c) {
      assert t[0] == c;
      assert !StartsWith(t, "&amp;") && !StartsWith(t, "&lt;") && !StartsWith(t, "&gt;")
        && !StartsWith(t, "&quot;") && !StartsWith(t, "&#39;") by {
        NotEntity(t);
      }
    } else {
      match c
      case '&' => assert t[1] == 'a';
      case '<' => assert t[1] == 'l';
      case '>' => assert t[1] == 'g';
      case '\"' => assert t[1] == 'q';
      case '\'' => assert t[1] == '#';
    }
  }

  lemma NotEntity(t: string)
    requires t != [] && t[0] != '&'
    ensures !StartsWith(t, "&amp;") && !StartsWith(t, "&lt;") && !StartsWith(t, "&gt;")
      && !StartsWith(t, "&quot;") && !StartsWith(t, "&#39;")
  {
    if |t| >= 4 { assert t[..4][0] == t[0]; }
    if |t| >= 5 { assert t[..5][0] == t[0]; }
    if |t| >= 6 { assert t[..6][0] == t[0]; }
  }

  lemma UnescapeStep(c: char, rest: string)
    ensures Unescape(EscapeChar(c) + rest) == [c] + Unescape(rest)
  {
    EntityPrefix(c, rest);
  }

  lemma WellEscapedStep(c: char, rest: string)
    ensures WellEscaped(EscapeChar(c) + rest) == WellEscaped(rest)
  {
    EntityPrefix(c, rest);
  }

  /** Decoding escaped text restores it, and every '&' in escaped text
      begins an entity. */
  lemma {:induction false} UnescapeEscapeHtml(s: string)
    ensures Unescape(EscapeHtml(s)) == s
    ensures WellEscaped(EscapeHtml(s))
    decreases |s|
  {
    EscapeHtmlIsEach(s);
    if s != [] {
      UnescapeStep(s[0], EscapeEach(s[1..]));
      WellEscapedStep(s[0], EscapeEach(s[1..]));
      UnescapeEscapeHtml(s[1..]);
      EscapeHtmlIsEach(s[1..]);
      assert [s[0]] + s[1..] == s;
    }
  }

  // ---------------------------------------------------------------------
  // File names

  /** Unicode's combining diacritical marks, U+0300 to U+036F. */
  predicate CombiningMark(c: char) {
    '\U{0300}' <= c <= '\U{036F}'
  }

  /** `[a-zA-Z0-9_-]`. */
  predicate FileNameChar(c: char) {
    'a' <= c <= 'z' || 'A' <= c <= 'Z' || '0' <= c <= '9' || c == '_' || c == '-'
  }

  predicate AllFileNameChars(s: string) {
    forall k :: 0 <= k < |s| ==> FileNameChar(s[k])
  }

  ghost predicate NoDoubleUnderscore(s: string) {
    forall i, j :: 0 <= i && j == i + 1 && j < |s| ==> !(s[i] == '_' && s[j] == '_')
  }

  /** `replace(/[\u0300-\u036f]/g, '')`: the combining marks dropped. */
  function RemoveMarks(s: string): (r: string)
    ensures forall k :: 0 <= k < |r| ==> !CombiningMark(r[k])
  {
    if s == [] then []
    else (if CombiningMark(s[0]) then [] else [s[0]]) + RemoveMarks(s[1..])
  }

  /** `replace(/[^a-zA-Z0-9_-]/g, '_')`. */
  function ReplaceUnsafe(s: string): (r: string)
    ensures AllFileNameChars(r)
    ensures |r| == |s| && forall k :: 0 <= k < |s| && FileNameChar(s[k]) ==> r[k] == s[k]
  {
    seq(|s|, k requires 0 <= k < |s| => if FileNameChar(s[k]) then s[k] else '_')
  }

  /** `replace(/_{2,}/g, '_')`: each run of underscores becomes one. */
  function CollapseUnderscores(s: string): (r: string)
    ensures |r| <= |s| && (r == [] <==> s == [])
    ensures s != [] ==> r[0] == s[0]
    ensures AllFileNameChars(s) ==> AllFileNameChars(r)
    ensures NoDoubleUnderscore(r)
  {
    if |s| <= 1 then s
    else if s[0] == '_' && s[1] == '_' then CollapseUnderscores(s[1..])
    else
      var rest := CollapseUnderscores(s[1..]);
      assert rest[0] == s[1];
      [s[0]] + rest
  }

  /** `replace(/^_+/, '')`: the leading underscores dropped. */
  function DropLeadingUnderscores(s: string): (r: string)
    ensures |r| <= |s| && r == s[|s| - |r|..]
    ensures r == [] || r[0] != '_'
    ensures forall k :: 0 <= k < |s| - |r| ==> s[k] == '_'
  {
    if s != [] && s[0] == '_' then DropLeadingUnderscores(s[1..]) else s
  }

  /** `replace(/_+$/, '')`: the trailing underscores dropped. */
  function DropTrailingUnderscores(s: string): (r: string)
    ensures |r| <= |s| && r == s[..|r|]
    ensures r == [] || r[|r| - 1] != '_'
    ensures forall k :: |r| <= k < |s| ==> s[k] == '_'
  {
    if s != [] && s[|s| - 1] == '_' then DropTrailingUnderscores(s[..|s| - 1]) else s
  }

  /** A name `sanitizeFileNamePart` may return: non-empty, of file-name
      characters, without "__", not starting or ending with '_'. */
  ghost predicate CleanToken(t: string) {
    t != [] && AllFileNameChars(t) && NoDoubleUnderscore(t) && t[0] != '_' && t[|t| - 1] != '_'
  }

  lemma SliceClean(s: string, i: nat, j: nat)
    requires i <= j <= |s| && AllFileNameChars(s) && NoDoubleUnderscore(s)
    ensures AllFileNameChars(s[i..j]) && NoDoubleUnderscore(s[i..j])
  {
    var t := s[i..j];
    assert forall k :: 0 <= k < |t| ==> t[k] == s[i + k];
  }

  /** Trimming the underscores of a collapsed name leaves nothing or a
      clean token. */
  lemma TrimmedClean(s: string)
    requires AllFileNameChars(s) && NoDoubleUnderscore(s)
    ensures var n := DropTrailingUnderscores(DropLeadingUnderscores(s)); n == [] || CleanToken(n)
  {
    var lead := DropLeadingUnderscores(s);
    var n := DropTrailingUnderscores(lead);
    SliceClean(s, |s| - |lead|, |s|);
    SliceClean(lead, 0, |n|);
    if n != [] {
      assert n[0] == lead[0];
    }
  }

  /** `sanitizeFileNamePart` applied to the NFD decomposition of a name:
      the marks dropped, unsafe characters turned into '_', runs of '_'
      collapsed, '_' trimmed at both ends, and 'cliente' when nothing is
      left. */
  function SanitizeFileNamePart(decomposed: string): (r: string)
    ensures CleanToken(r)
  {
    var collapsed := CollapseUnderscores(ReplaceUnsafe(RemoveMarks(decomposed)));
    var n := DropTrailingUnderscores(DropLeadingUnderscores(collapsed));
    TrimmedClean(collapsed);
    if n == [] then FallbackClean(); "cliente" else n
  }

  /** The fallback token is clean. */
  lemma FallbackClean()
    ensures CleanToken("cliente")
  {
    var t := "cliente";
    assert forall k :: 0 <= k < |t| ==> t[k] != '_';
  }

  lemma {:induction false} RemoveMarksNoop(s: string)
    requires forall k :: 0 <= k < |s| ==> !CombiningMark(s[k])
    ensures RemoveMarks(s) == s
    decreases |s|
  {
    if s != [] {
      RemoveMarksNoop(s[1..]);
      assert [s[0]] + s[1..] == s;
    }
  }

  lemma {:induction false} CollapseNoop(s: string)
    requires NoDoubleUnderscore(s)
    ensures CollapseUnderscores(s) == s
    decreases |s|
  {
    if |s| > 1 {
      assert !(s[0] == '_' && s[1] == '_');
      assert NoDoubleUnderscore(s[1..]) by {
        forall i, j | 0 <= i && j == i + 1 && j < |s| - 1
          ensures !(s[1..][i] == '_' && s[1..][j] == '_')
        {
          assert s[1..][i] == s[i + 1] && s[1..][j] == s[j + 1];
        }
      }
      CollapseNoop(s[1..]);
      assert [s[0]] + s[1..] == s;
    }
  }

  /** A clean token is kept as it is. */
  lemma SanitizeKeepsClean(t: string)
    requires CleanToken(t)
    ensures SanitizeFileNamePart(t) == t
  {
    assert forall k :: 0 <= k < |t| ==> !CombiningMark(t[k]) by {
      forall k | 0 <= k < |t|
        ensures !CombiningMark(t[k])
      {
        assert FileNameChar(t[k]);
      }
    }
    RemoveMarksNoop(t);
    assert ReplaceUnsafe(t) == t;
    CollapseNoop(t);
  }

  /** Sanitising a sanitised token changes nothing. */
  lemma SanitizeIdempotent(decomposed: string)
    ensures SanitizeFileNamePart(SanitizeFileNamePart(decomposed)) == SanitizeFileNamePart(decomposed)
  {
    SanitizeKeepsClean(SanitizeFileNamePart(decomposed));
  }

  // ---------------------------------------------------------------------
  // Labels and the file name

  /** `buildDocumentType`. */
  function DocumentType(status: RentalStatus): (r: string)
    ensures r == "ORCAMENTO" <==> status == Quote
    ensures r != "ORCAMENTO" ==> r == "LOCACAO"
  {
    if status == Quote then "ORCAMENTO" else "LOCACAO"
  }

  /** The warning block a quote carries. */
  const QuoteAlertBlock: string :=
    "\n    <div class=\"highlight\">\n      <strong>ATENCAO:</strong> ESTE DOCUMENTO E UM ORCAMENTO E NAO REPRESENTA RESERVA DE EQUIPAMENTO.\n    </div>\n  "

  /** `buildQuoteAlert`: the warning for a quote, nothing otherwise. */
  function QuoteAlert(status: RentalStatus): (r: string)
    ensures r == [] <==> status != Quote
    ensures r != [] ==> r == QuoteAlertBlock
  {
    if status != Quote then [] else QuoteAlertBlock
  }

  /** `buildDeliveryLine`. */
  function DeliveryLine(mode: DeliveryMode): (r: string)
    ensures r == "Entrega" <==> mode == Delivery
    ensures r != "Entrega" ==> r == "Retirada"
  {
    if mode == Delivery then "Entrega" else "Retirada"
  }

  /** The file name's first token. */
  function FilePrefix(status: RentalStatus): (r: string)
    ensures r == "orcamento" <==> status == Quote
    ensures r != "orcamento" ==> r == "locacao"
  {
    if status == Quote then "orcamento" else "locacao"
  }

  /** `buildRentalPdfFileName`, with today's DD/MM/YYYY date passed in:
      prefix, client token and date, joined by '_', the date's '/' made
      '-'. */
  function RentalPdfFileName(decomposedClientName: string, status: RentalStatus, today: string): string {
    FileNameHead(decomposedClientName, status) + ReplaceAllChar(today, '/', '-')
  }

  /** The part of the file name before the date: `prefix_token_`. */
  function FileNameHead(decomposedClientName: string, status: RentalStatus): string {
    FilePrefix(status) + "_" + SanitizeFileNamePart(decomposedClientName) + "_"
  }

  /** Today's DD/MM/YYYY date as the file name writes it: DD-MM-YYYY. */
  lemma DateToken(today: string)
    requires BrDateShape(today)
    ensures ReplaceAllChar(today, '/', '-') == today[..2] + "-" + today[3..5] + "-" + today[6..]
    ensures AllFileNameChars(ReplaceAllChar(today, '/', '-'))
  {
    var date := ReplaceAllChar(today, '/', '-');
    var rhs := today[..2] + "-" + today[3..5] + "-" + today[6..];
    forall k | 0 <= k < |date|
      ensures date[k] == rhs[k] && FileNameChar(date[k])
    {
      if k < 2 { assert today[..2][k] == today[k]; }
      else if 2 < k < 5 { assert today[3..5][k - 3] == today[k]; }
      else if k > 5 { assert today[6..][k - 6] == today[k]; }
    }
  }

  lemma FileNameCharsAppend(a: string, b: string)
    requires AllFileNameChars(a) && AllFileNameChars(b)
    ensures AllFileNameChars(a + b)
  {
    assert forall k :: |a| <= k < |a + b| ==> (a + b)[k] == b[k - |a|];
  }

  /** For a DD/MM/YYYY date the file name is made of file-name characters
      only, starts with the prefix and the client's token, and ends with
      the date written DD-MM-YYYY. */
  lemma FileNameSafe(decomposedClientName: string, status: RentalStatus, today: string)
    requires BrDateShape(today)
    ensures AllFileNameChars(RentalPdfFileName(decomposedClientName, status, today))
    ensures var head := FilePrefix(status) + "_" + SanitizeFileNamePart(decomposedClientName) + "_";
      StartsWith(RentalPdfFileName(decomposedClientName, status, today), head)
    ensures var f := RentalPdfFileName(decomposedClientName, status, today);
      f[|f| - 10..] == today[..2] + "-" + today[3..5] + "-" + today[6..]
  {
    var date := ReplaceAllChar(today, '/', '-');
    var head := FileNameHead(decomposedClientName, status);
    DateToken(today);
    FileNameHeadSafe(decomposedClientName, status);
    FileNameCharsAppend(head, date);
    assert (head + date)[..|head|] == head;
    assert (head + date)[|head + date| - 10..] == date;
  }

  /** The part before the date is made of file-name characters. */
  lemma FileNameHeadSafe(decomposedClientName: string, status: RentalStatus)
    ensures AllFileNameChars(FileNameHead(decomposedClientName, status))
  {
    var token := SanitizeFileNamePart(decomposedClientName);
    assert AllFileNameChars(token);
    FilePrefixSafe(status);
    JoinedFileNameChars(FilePrefix(status), token);
  }

  /** Both prefixes are made of file-name characters. */
  lemma FilePrefixSafe(status: RentalStatus)
    ensures AllFileNameChars(FilePrefix(status))
  {
    var p := FilePrefix(status);
    forall k | 0 <= k < |p|
      ensures FileNameChar(p[k])
    {
      assert 'a' <= p[k] <= 'z';
    }
  }

  /** Joining two safe parts with '_' and ending with '_' stays safe. */
  lemma JoinedFileNameChars(prefix: string, token: string)
    requires AllFileNameChars(prefix) && AllFileNameChars(token)
    ensures AllFileNameChars(prefix + "_" + token + "_")
  {
    FileNameCharsAppend(prefix, "_");
    FileNameCharsAppend(prefix + "_", token);
    FileNameCharsAppend(prefix + "_" + token, "_");
  }

  // ---------------------------------------------------------------------
  // Field selection in buildRentalPdfHtml

  /** An optional text field: its trimmed value escaped when it is to be
      shown and not blank, '-' otherwise. */
  function TextCell(show: bool, raw: string): string {
    if show && Trim(raw) != [] then EscapeHtml(Trim(raw)) else "-"
  }

  /** The quote validity: only for a quote. */
  function QuoteValidityCell(status: RentalStatus, quoteValidUntil: string): string {
    TextCell(status == Quote, quoteValidUntil)
  }

  /** The notes: whenever they are not blank. */
  function NotesCell(notes: string): string {
    TextCell(true, notes)
  }

  /** The address: only for a delivery. */
  function AddressCell(mode: DeliveryMode, deliveryAddress: string): string {
    TextCell(mode == Delivery, deliveryAddress)
  }

  /** A cell shows the trimmed value, read back exactly, when it is shown
      and not blank; otherwise it shows '-'. */
  lemma TextCellMeaning(show: bool, raw: string)
    ensures show && !AllSpace(raw) ==> Unescape(TextCell(show, raw)) == Trim(raw) && WellEscaped(TextCell(show, raw))
    ensures !show || AllSpace(raw) ==> TextCell(show, raw) == "-"
  {
    TrimEmptyIffAllSpace(raw);
    UnescapeEscapeHtml(Trim(raw));
  }

  /** The three optional fields of the document. */
  lemma DocumentFields(status: RentalStatus, quoteValidUntil: string, mode: DeliveryMode, deliveryAddress: string)
    ensures status != Quote ==> QuoteValidityCell(status, quoteValidUntil) == "-"
    ensures status == Quote && !AllSpace(quoteValidUntil) ==>
      Unescape(QuoteValidityCell(status, quoteValidUntil)) == Trim(quoteValidUntil)
    ensures mode != Delivery ==> AddressCell(mode, deliveryAddress) == "-"
    ensures mode == Delivery && !AllSpace(deliveryAddress) ==>
      Unescape(AddressCell(mode, deliveryAddress)) == Trim(deliveryAddress)
  {
    TextCellMeaning(status == Quote, quoteValidUntil);
    TextCellMeaning(mode == Delivery, deliveryAddress);
  }

  /** The company name and document in the header: the trimmed text, or
      '-' when it is blank, escaped. */
  function CompanyCell(raw: string): string {
    EscapeHtml(if Trim(raw) != [] then Trim(raw) else "-")
  }

  /** The client's document and phone: the text as stored, or '-' when it
      is empty, escaped. */
  function ClientCell(raw: string): string {
    EscapeHtml(if raw != [] then raw else "-")
  }

  /** The header and client fields: a blank company field and an empty
      client field show '-'; any other value reads back exactly, trimmed
      for the company fields and untrimmed for the client's. */
  lemma HeaderFields(company: string, client: string)
    ensures AllSpace(company) ==> CompanyCell(company) == "-"
    ensures !AllSpace(company) ==>
      WellEscaped(CompanyCell(company)) && Unescape(CompanyCell(company)) == Trim(company)
    ensures client == [] ==> ClientCell(client) == "-"
    ensures client != [] ==>
      WellEscaped(ClientCell(client)) && Unescape(ClientCell(client)) == client
  {
    TrimEmptyIffAllSpace(company);
    EscapeHtmlPlain("-");
    UnescapeEscapeHtml(Trim(company));
    UnescapeEscapeHtml(client);
  }

  /** The logo block: an image whose source is the escaped, trimmed URI,
      or nothing for a blank URI. */
  function LogoBlock(companyLogoUri: string): string {
    if Trim(companyLogoUri) != [] then
      "\n      <div class=\"logo-box\">\n        <img src=\"" + EscapeHtml(Trim(companyLogoUri))
        + "\" alt=\"Logo empresa\" />\n      </div>\n    "
    else []
  }

  /** No block for a blank URI; otherwise the source attribute holds no
      quote that could end it early, and reads back as the trimmed URI. */
  lemma LogoBlockMeaning(companyLogoUri: string)
    ensures LogoBlock(companyLogoUri) == [] <==> AllSpace(companyLogoUri)
    ensures !AllSpace(companyLogoUri) ==>
      '\"' !in EscapeHtml(Trim(companyLogoUri)) && Unescape(EscapeHtml(Trim(companyLogoUri))) == Trim(companyLogoUri)
  {
    TrimEmptyIffAllSpace(companyLogoUri);
    var src := EscapeHtml(Trim(companyLogoUri));
    EscapeHtmlNoMarkup(Trim(companyLogoUri));
    assert '\"' !in src by {
      forall k | 0 <= k < |src|
        ensures src[k] != '\"'
      {
        assert !Markup(src[k]);
      }
    }
    UnescapeEscapeHtml(Trim(companyLogoUri));
  }
}
