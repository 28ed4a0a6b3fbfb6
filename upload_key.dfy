/**
 * The object key an upload is issued under, `code-<hex>-session.ext`, and how
 * the ingestion handlers read the code and the session back out of it:
 * `code = key.split("-")[0]`, `session_id = key.split("-")[2].split(".")[0]`.
 */
module UploadKey {
  import opened Records
  import opened PyBuiltins
  import opened CodeAllocator

  /** `headers['file-extension'].strip('.').lower()`. */
  function NormalizeExtension(header: string): (ext: string)
    ensures |ext| <= |header|
    ensures ext == [] || (ext[0] != '.' && ext[|ext| - 1] != '.')
    ensures forall i :: 0 <= i < |ext| ==> !('A' <= ext[i] <= 'Z')
    ensures exists i, j :: CleanSpan(header, '.', i, j) && ext == Lower(header[i..j])
  {
    Lower(Strip(header, '.'))
  }

  /** Normalising an extension twice changes nothing more. */
  lemma NormalizeExtensionIdempotent(header: string)
    ensures NormalizeExtension(NormalizeExtension(header)) == NormalizeExtension(header)
  {
    NormalizeStable(NormalizeExtension(header));
  }

  /** An extension with no dot at either end and no capital is already normal. */
  lemma NormalizeStable(ext: string)
    requires ext == [] || (ext[0] != '.' && ext[|ext| - 1] != '.')
    requires forall i :: 0 <= i < |ext| ==> !('A' <= ext[i] <= 'Z')
    ensures NormalizeExtension(ext) == ext
  {
    StripStable(ext, '.');
    LowerStable(ext);
  }

  /** `'{}-{}-{}.{}'.format(code, uuid.uuid4().hex, session_id, file_extension)`. */
  function FormatKey(code: string, hex: string, sessionId: string, ext: string): string
  {
    code + "-" + hex + "-" + sessionId + "." + ext
  }

  /** `uuid.uuid4().hex`: 32 lower-case hexadecimal digits. */
  predicate IsUuidHex(hex: string)
  {
    |hex| == 32 && forall i :: 0 <= i < |hex| ==> hex[i] in "0123456789abcdef"
  }

  datatype ParsedKey = ParsedKey(code: string, sessionId: string)

  /**
   * The parse both ingestion handlers do. `key_split[2]` raises `IndexError`
   * when the key has fewer than two dashes; otherwise the code is the text
   * before the first dash and the session is the third dash-separated field
   * up to its first dot.
   */
  function ParseKey(key: string): (r: Result<ParsedKey>)
    ensures r.Raised? <==> Count(key, '-') < 2
    ensures r.Raised? ==> r.error == IndexError
    ensures r.Ok? ==> r.value.code + "-" <= key
    ensures r.Ok? ==> '-' !in r.value.code && '-' !in r.value.sessionId && '.' !in r.value.sessionId
  {
    var parts := Split(key, '-');
    SplitPieces(key, '-');
    FirstPiece(key, '-');
    if |parts| < 3 then Raised(IndexError)
    else
      var session := Split(parts[2], '.')[0];
      assert '-' !in session by {
        FirstPiece(parts[2], '.');
      }
      Ok(ParsedKey(parts[0], session))
  }

  /**
   * Parsing a key built by the proxies gives back the code and the session,
   * as long as neither holds a dash, the session holds no dot, and the middle
   * part is a uuid in hexadecimal. The extension may be anything.
   */
  lemma ParseFormatKey(code: string, hex: string, sessionId: string, ext: string)
    requires '-' !in code && IsUuidHex(hex)
    requires '-' !in sessionId && '.' !in sessionId
    ensures ParseKey(FormatKey(code, hex, sessionId, ext)) == Ok(ParsedKey(code, sessionId))
  {
    var tail := sessionId + "." + ext;
    assert FormatKey(code, hex, sessionId, ext) == code + "-" + hex + "-" + tail;
    assert '-' !in hex;
    KeyFields(code, hex, tail);
    SessionField(sessionId, ext);
  }

  /** The first two dash-free fields of a key come out of the split as they went in. */
  lemma KeyFields(code: string, hex: string, tail: string)
    requires '-' !in code && '-' !in hex
    ensures Split(code + "-" + hex + "-" + tail, '-') == [code, hex] + Split(tail, '-')
  {
    assert code + "-" + hex + "-" + tail == code + ['-'] + (hex + ['-'] + tail);
    SplitAtFirst(code, hex + ['-'] + tail, '-');
    SplitAtFirst(hex, tail, '-');
  }

  /** The third field, cut at its first dot, is the session that was put there. */
  lemma SessionField(sessionId: string, ext: string)
    requires '-' !in sessionId && '.' !in sessionId
    ensures Split(Split(sessionId + "." + ext, '-')[0], '.')[0] == sessionId
  {
    SplitHead(sessionId, "." + ext, '-');
    SplitHead(".", ext, '-');
    assert sessionId + "." + ext == sessionId + ("." + ext);
    var field := Split(sessionId + "." + ext, '-')[0];
    assert field == sessionId + ['.'] + Split(ext, '-')[0];
    SplitAtFirst(sessionId, Split(ext, '-')[0], '.');
  }

  /**
   * For any key with at least two dashes, the session is the text after the
   * second dash up to the next dash or dot, or up to the end of the key.
   */
  lemma SessionAfterSecondDash(code: string, middle: string, tail: string)
    requires '-' !in code && '-' !in middle
    ensures var r := ParseKey(code + "-" + middle + "-" + tail);
            r.Ok? && r.value.code == code && r.value.sessionId <= tail &&
            (|r.value.sessionId| == |tail| || tail[|r.value.sessionId|] in "-.")
  {
    KeyFields(code, middle, tail);
    var field := Split(tail, '-')[0];
    FirstPiece(tail, '-');
    FirstPiece(field, '.');
  }

  /** A key with fewer than two dashes is rejected before anything else happens. */
  lemma ShortKeyRaises(key: string)
    requires Count(key, '-') < 2
    ensures ParseKey(key) == Raised(IndexError)
  {
  }

  /** A code with a dash in it is cut at the dash: such an upload lands under another code. */
  lemma DashedCodeIsCut(prefix: string, rest: string, hex: string, sessionId: string, ext: string)
    requires '-' !in prefix && IsUuidHex(hex)
    ensures var key := FormatKey(prefix + "-" + rest, hex, sessionId, ext);
            ParseKey(key).Ok? && ParseKey(key).value.code == prefix
  {
    var key := FormatKey(prefix + "-" + rest, hex, sessionId, ext);
    var after := hex + "-" + sessionId + "." + ext;
    var tail := rest + ("-" + after);
    assert key == prefix + ['-'] + tail;
    SplitAtFirst(prefix, tail, '-');
    CountAppend(rest, "-" + after, '-');
    assert ("-" + after)[1..] == after;
    SplitPieces(tail, '-');
  }

  /** A code drawn from either alphabet holds no dash, so its keys parse back to it. */
  lemma GeneratedKeyRoundTrip(code: string, alphabet: string, hex: string, sessionId: string, ext: string)
    requires alphabet == ShortAlphabet || alphabet == AlnumAlphabet
    requires forall i :: 0 <= i < |code| ==> code[i] in alphabet
    requires IsUuidHex(hex) && '-' !in sessionId && '.' !in sessionId
    ensures ParseKey(FormatKey(code, hex, sessionId, ext)) == Ok(ParsedKey(code, sessionId))
  {
    assert '-' !in ShortAlphabet;
    assert '-' !in AlnumAlphabet by {
      assert '-' !in CharRange('a', 26) && '-' !in CharRange('A', 26) && '-' !in CharRange('0', 10);
    }
    assert '-' !in code;
    ParseFormatKey(code, hex, sessionId, ext);
  }

  /**
   * A key with a dash after the session still parses: the session is the
   * third field, whatever follows it.
   */
  lemma ExtraFieldIgnored(code: string, middle: string, sessionId: string, rest: string)
    requires '-' !in code && '-' !in middle && '-' !in sessionId && '.' !in sessionId
    ensures ParseKey(code + "-" + middle + "-" + sessionId + "-" + rest) == Ok(ParsedKey(code, sessionId))
  {
    var key := code + "-" + middle + "-" + sessionId + "-" + rest;
    assert key == code + ['-'] + (middle + ['-'] + (sessionId + ['-'] + rest));
    SplitAtFirst(code, middle + ['-'] + (sessionId + ['-'] + rest), '-');
    SplitAtFirst(middle, sessionId + ['-'] + rest, '-');
    SplitAtFirst(sessionId, rest, '-');
    SplitWithoutSeparator(sessionId, '.');
  }

  /** `"abc1234-f3a1-S9-mp4.mov"` is accepted, as code `abc1234` and session `S9`. */
  lemma ExtraDashStillParses()
    ensures ParseKey("abc1234-f3a1-S9-mp4.mov") == Ok(ParsedKey("abc1234", "S9"))
  {
    ExtraFieldIgnored("abc1234", "f3a1", "S9", "mp4.mov");
    assert "abc1234" + "-" + "f3a1" + "-" + "S9" + "-" + "mp4.mov" == "abc1234-f3a1-S9-mp4.mov";
  }
}
