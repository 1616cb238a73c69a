/**
 * The character-replacement sanitisers of the server: `sanitizeZipEntryName`,
 * which keeps archive entries from naming directories, `sanitizeFilename`,
 * which keeps a display name free of the characters file systems reserve,
 * and the quote stripping that protects the `Content-Disposition` header.
 */
module Sanitize {

  /** Kotlin's `replace(from, to)` with one-character strings on both sides. */
  function ReplaceChar(s: string, from: char, to: char): (r: string)
    ensures |r| == |s|
    ensures forall i :: 0 <= i < |s| ==> r[i] == (if s[i] == from then to else s[i])
  {
    if s == [] then [] else [if s[0] == from then to else s[0]] + ReplaceChar(s[1..], from, to)
  }

  /** A path separator, either style. */
  predicate IsSeparator(c: char) {
    c == '\\' || c == '/'
  }

  /** `sanitizeZipEntryName`: backslashes, then slashes, become underscores. */
  function SanitizeZipEntryName(name: string): (r: string)
    ensures |r| == |name|
    ensures forall i :: 0 <= i < |name| ==> r[i] == (if IsSeparator(name[i]) then '_' else name[i])
    ensures forall i :: 0 <= i < |r| ==> !IsSeparator(r[i])
  {
    ReplaceChar(ReplaceChar(name, '\\', '_'), '/', '_')
  }

  /** An entry name that is already clean is left alone, so sanitising twice is sanitising once. */
  lemma SanitizeZipEntryNameIdempotent(name: string)
    ensures SanitizeZipEntryName(SanitizeZipEntryName(name)) == SanitizeZipEntryName(name)
  {
    var once := SanitizeZipEntryName(name);
    var twice := SanitizeZipEntryName(once);
    assert forall i :: 0 <= i < |once| ==> twice[i] == once[i];
  }

  /** A nested path collapses into one flat entry name. */
  lemma SanitizeZipEntryNameExample()
    ensures SanitizeZipEntryName("a/b.jpg") == "a_b.jpg"
    ensures SanitizeZipEntryName("a\\b.jpg") == "a_b.jpg"
  {
    var r := SanitizeZipEntryName("a/b.jpg");
    assert r[1] == '_';
    assert r == "a_b.jpg";
    var q := SanitizeZipEntryName("a\\b.jpg");
    assert q[1] == '_';
    assert q == "a_b.jpg";
  }

  /** The characters `sanitizeFilename`'s character class `[\\/:*?"<>|]` matches. */
  predicate IsReserved(c: char) {
    c == '\\' || c == '/' || c == ':' || c == '*' || c == '?' || c == '"' || c == '<' || c == '>' || c == '|'
  }

  /** `sanitizeFilename`: every reserved character becomes an underscore, one for one. */
  function SanitizeFilename(name: string): (r: string)
    ensures |r| == |name|
    ensures forall i :: 0 <= i < |name| ==> r[i] == (if IsReserved(name[i]) then '_' else name[i])
  {
    if name == [] then [] else [if IsReserved(name[0]) then '_' else name[0]] + SanitizeFilename(name[1..])
  }

  /** No reserved character survives, and the result is a fixed point. */
  lemma SanitizeFilenameClean(name: string)
    ensures forall i :: 0 <= i < |SanitizeFilename(name)| ==> !IsReserved(SanitizeFilename(name)[i])
    ensures SanitizeFilename(SanitizeFilename(name)) == SanitizeFilename(name)
  {
    var once := SanitizeFilename(name);
    var twice := SanitizeFilename(once);
    assert forall i :: 0 <= i < |once| ==> twice[i] == once[i];
  }

  /** Every separator is reserved, so a sanitised file name never names a subdirectory. */
  lemma SanitizeFilenameFlat(name: string)
    ensures forall i :: 0 <= i < |SanitizeFilename(name)| ==> !IsSeparator(SanitizeFilename(name)[i])
  {
    SanitizeFilenameClean(name);
  }

  /** Kotlin's `replace(c, "")`: every `c` removed, everything else kept in order. */
  function RemoveChar(s: string, c: char): (r: string)
    ensures |r| <= |s|
    ensures c !in r
    ensures forall x :: x != c ==> (x in r <==> x in s)
    ensures c !in s ==> r == s
    ensures |s| == 1 ==> r == (if s[0] == c then [] else s)
    ensures forall x :: x != c ==> Occurrences(r, x) == Occurrences(s, x)
  {
    if s == [] then []
    else if s[0] == c then RemoveChar(s[1..], c)
    else [s[0]] + RemoveChar(s[1..], c)
  }

  /** Removing a character works piece by piece, so the other characters keep their order. */
  lemma {:induction false} RemoveCharAppend(a: string, b: string, c: char)
    ensures RemoveChar(a + b, c) == RemoveChar(a, c) + RemoveChar(b, c)
    decreases |a|
  {
    if a != [] {
      assert (a + b)[1..] == a[1..] + b;
      RemoveCharAppend(a[1..], b, c);
    } else {
      assert a + b == b;
    }
  }

  /** The `Content-Disposition` value of a download, with the quotes already stripped from the name. */
  function AttachmentDisposition(fname: string): string {
    DISPOSITION_PREFIX + "\"" + RemoveChar(fname, '"') + "\""
  }

  const DISPOSITION_PREFIX: string := "attachment; filename="

  /** How many times `c` occurs in `s`. */
  function Occurrences(s: string, c: char): nat {
    if s == [] then 0 else (if s[0] == c then 1 else 0) + Occurrences(s[1..], c)
  }

  lemma {:induction false} OccurrencesAppend(a: string, b: string, c: char)
    ensures Occurrences(a + b, c) == Occurrences(a, c) + Occurrences(b, c)
  {
    if a == [] {
      assert a + b == b;
    } else {
      assert (a + b)[1..] == a[1..] + b;
      OccurrencesAppend(a[1..], b, c);
    }
  }

  lemma {:induction false} OccurrencesAbsent(s: string, c: char)
    requires c !in s
    ensures Occurrences(s, c) == 0
  {
    if s != [] {
      OccurrencesAbsent(s[1..], c);
    }
  }

  /**
   * Whatever name the client asks for, the header holds exactly the two quotes
   * that delimit the file name, so the name cannot close the quoted string.
   */
  lemma DispositionQuotes(fname: string)
    ensures Occurrences(AttachmentDisposition(fname), '"') == 2
    ensures var v := AttachmentDisposition(fname); v[|v| - 1] == '"'
  {
    var clean := RemoveChar(fname, '"');
    var quote := "\"";
    assert Occurrences(quote, '"') == 1;
    assert '"' !in DISPOSITION_PREFIX;
    OccurrencesAbsent(DISPOSITION_PREFIX, '"');
    OccurrencesAbsent(clean, '"');
    OccurrencesAppend(DISPOSITION_PREFIX, quote, '"');
    OccurrencesAppend(DISPOSITION_PREFIX + quote, clean, '"');
    OccurrencesAppend(DISPOSITION_PREFIX + quote + clean, quote, '"');
  }
}
