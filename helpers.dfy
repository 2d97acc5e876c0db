/**
 * Small pure pieces of the command-line client: the download file name taken
 * from a `Content-Disposition` header, the validity rule of a public link, the
 * `overwrite` form field of an upload, and the splitting of a nested `mkdir`
 * path.
 */
module Helpers {
  import opened Wrappers
  import opened Paths

  // ---- substring search, as `str.split(sep)` performs it ----

  /** `pat` occurs in `s` at index `i`. */
  predicate OccursAt(s: string, pat: string, i: int)
  {
    0 <= i && i + |pat| <= |s| && s[i..i + |pat|] == pat
  }

  /** The first occurrence of `pat` in `s` at or after `from`. */
  function FindFrom(s: string, pat: string, from: nat): (r: Option<nat>)
    ensures r.Some? ==> from <= r.value && OccursAt(s, pat, r.value)
                         && forall j :: from <= j < r.value ==> !OccursAt(s, pat, j)
    ensures r.None? ==> forall j :: from <= j ==> !OccursAt(s, pat, j)
    decreases |s| - from
  {
    if from + |pat| > |s| then None
    else if s[from..from + |pat|] == pat then Some(from)
    else FindFrom(s, pat, from + 1)
  }

  /** `s.split(pat)[1]` for a non-empty `pat` that occurs in `s`: the text
      between its first occurrence and the next one, or the end. */
  function SecondPiece(s: string, pat: string): (piece: string)
    requires pat != [] && FindFrom(s, pat, 0).Some?
  {
    var start := FindFrom(s, pat, 0).value + |pat|;
    match FindFrom(s, pat, start)
    case Some(next) => s[start..next]
    case None => s[start..]
  }

  /** The decimal digits of `n`. */
  function DecimalNat(n: nat): (r: string)
    ensures r != [] && forall i :: 0 <= i < |r| ==> '0' <= r[i] <= '9'
    decreases n
  {
    if n < 10 then [('0' as int + n) as char]
    else DecimalNat(n / 10) + [('0' as int + n % 10) as char]
  }

  /** `str(n)` for an integer. */
  function Decimal(n: int): string
  {
    if n < 0 then "-" + DecimalNat(-n) else DecimalNat(n)
  }

  const QuoteChars: set<char> := {'"', '\''}

  /** The file id `download_file` formats into `file_{file_id}`: `--download`
      passes the command-line text as typed, `--download-path` passes the
      integer id that path resolution returned. */
  datatype FileIdArg = Typed(text: string) | Resolved(id: int)

  /** What `f"{file_id}"` renders for each kind of id. */
  function IdText(fileId: FileIdArg): string
  {
    match fileId
    case Typed(text) => text
    case Resolved(id) => Decimal(id)
  }

  /** The decimal text of a non-negative resolved id has no leading zero
      unless it is `0`, so a typed id such as `007` keeps a name that no
      resolved id produces. */
  lemma {:induction false} DecimalNoLeadingZero(n: nat)
    ensures DecimalNat(n)[0] == '0' <==> n == 0
    decreases n
  {
    if n >= 10 {
      DecimalNoLeadingZero(n / 10);
      assert DecimalNat(n)[0] == DecimalNat(n / 10)[0];
    }
  }

  /** The name a download is saved under: the `filename=` value of the
      `Content-Disposition` header with quotes stripped, otherwise
      `file_<id>`. */
  function DownloadFilename(contentDisposition: Option<string>, fileId: FileIdArg): (name: string)
    ensures contentDisposition.None? || contentDisposition.value == []
            || FindFrom(contentDisposition.value, "filename=", 0).None?
            ==> name == "file_" + IdText(fileId)
  {
    match contentDisposition
    case Some(cd) =>
      if cd != [] && FindFrom(cd, "filename=", 0).Some? then
        Strip(SecondPiece(cd, "filename="), QuoteChars)
      else "file_" + IdText(fileId)
    case None => "file_" + IdText(fileId)
  }

  /** A name taken from the header never begins or ends with a quote. */
  lemma {:induction false} FilenameUnquoted(cd: string, fileId: FileIdArg)
    requires cd != [] && FindFrom(cd, "filename=", 0).Some?
    ensures var name := DownloadFilename(Some(cd), fileId);
            name == [] || (name[0] !in QuoteChars && name[|name| - 1] !in QuoteChars)
  {
    var piece := SecondPiece(cd, "filename=");
    var l := LStrip(piece, QuoteChars);
    var r := RStrip(l, QuoteChars);
    if r != [] {
      assert r[0] == l[0];
    }
  }

  /** The header the server sends for a stored file names it back: quoting a
      name that has no `=` and does not begin or end with a quote gives that
      name. */
  lemma {:induction false} FilenameFromAttachment(name: string, fileId: FileIdArg)
    requires '=' !in name
    requires name == [] || (name[0] !in QuoteChars && name[|name| - 1] !in QuoteChars)
    ensures DownloadFilename(Some("attachment; filename=\"" + name + "\""), fileId) == name
  {
    var pat := "filename=";
    var quoted := "\"" + name + "\"";
    var cd := "attachment; " + pat + quoted;
    assert cd == "attachment; filename=\"" + name + "\"";
    assert OccursAt(cd, pat, 12);
    forall j | 0 <= j < 12 ensures !OccursAt(cd, pat, j) {
      assert cd[j] != 'f';
      assert cd[j..j + |pat|][0] == cd[j];
    }
    assert FindFrom(cd, pat, 0) == Some(12);
    forall j | 21 <= j ensures !OccursAt(cd, pat, j) {
      if j + |pat| <= |cd| {
        assert cd[j + 8] == quoted[j + 8 - 21];
        if 0 < j + 8 - 21 < |quoted| - 1 {
          assert quoted[j + 8 - 21] == name[j + 8 - 22];
        }
        assert cd[j + 8] != '=';
        assert cd[j..j + |pat|][8] == cd[j + 8];
      }
    }
    assert FindFrom(cd, pat, 21).None?;
    assert SecondPiece(cd, pat) == cd[21..] == quoted;
    assert quoted == ['"'] + name + ['"'];
    StripWrapped(name, '"', QuoteChars);
  }

  // ---- public-link validity ----

  /** A field of a JSON object: missing, `null`, or given. `dict.get` sees
      the first two differently from `in`, so the model keeps them apart. */
  datatype Field<T> = Absent | Null | Given(value: T)

  /** A public link as the file-info answer describes it. `expired` is the
      outcome of comparing `expires_at` with the clock (false when absent,
      null or unparseable). */
  datatype PublicLink = PublicLink(
    isValid: Field<bool>,
    expired: bool,
    maxDownloads: Field<int>,
    downloadCount: Field<int>)

  /** What the display makes of a link: valid, shown as expired or maxed
      out, or a `TypeError` that ends the display of the links. */
  datatype Verdict = Valid | Invalid | DisplayError

  /** `download_count` as `link.get('download_count', 0)` reads it, when it
      is not `null`. */
  function Downloads(link: PublicLink): int
  {
    match link.downloadCount
    case Given(c) => c
    case _ => 0
  }

  /** `is_valid = link.get('is_valid', True)`, recomputed only when the key
      is missing: valid unless expired, and invalid once the download count
      reaches a non-null `max_downloads`; comparing a `null` count with the
      cap raises. A `null` `is_valid` is falsy. */
  function LinkVerdict(link: PublicLink): Verdict
  {
    match link.isValid
    case Given(v) => if v then Valid else Invalid
    case Null => Invalid
    case Absent =>
      if link.maxDownloads.Given? && link.downloadCount.Null? then DisplayError
      else if link.expired then Invalid
      else if link.maxDownloads.Given? && Downloads(link) >= link.maxDownloads.value then Invalid
      else Valid
  }

  /** The server's verdict, when given, is final and a `null` one reads as
      invalid; otherwise a `null` download count beside a cap raises, an
      expired link is invalid, a link with a cap is valid exactly while
      fewer downloads than the cap were made, and any other link is valid. */
  lemma {:induction false} MaxDownloadsRule(link: PublicLink)
    ensures link.isValid.Given? ==> (LinkVerdict(link) == Valid <==> link.isValid.value)
    ensures link.isValid.Given? ==> LinkVerdict(link) != DisplayError
    ensures link.isValid.Null? ==> LinkVerdict(link) == Invalid
    ensures link.isValid.Absent? ==>
              (LinkVerdict(link) == DisplayError <==> link.maxDownloads.Given? && link.downloadCount.Null?)
    ensures link.isValid.Absent? && link.expired && !(link.maxDownloads.Given? && link.downloadCount.Null?) ==>
              LinkVerdict(link) == Invalid
    ensures link.isValid.Absent? && !link.expired && link.maxDownloads.Given? && !link.downloadCount.Null? ==>
              (LinkVerdict(link) == Valid <==> Downloads(link) < link.maxDownloads.value)
    ensures link.isValid.Absent? && !link.expired && !link.maxDownloads.Given? ==> LinkVerdict(link) == Valid
  {
  }

  /** More downloads never make a computed verdict valid again. */
  lemma {:induction false} ValidityMonotone(link: PublicLink, more: int)
    requires link.isValid.Absent? && !link.downloadCount.Null? && more >= Downloads(link)
    ensures LinkVerdict(link.(downloadCount := Given(more))) == Valid ==> LinkVerdict(link) == Valid
  {
  }

  /** The verdicts the link loop shows, in order: it stops at the first
      link whose verdict raises, which is the last one shown. */
  function ShownVerdicts(links: seq<PublicLink>): (r: seq<Verdict>)
    ensures |r| <= |links|
    ensures forall i :: 0 <= i < |r| ==> r[i] == LinkVerdict(links[i])
    ensures forall i :: 0 <= i < |r| - 1 ==> r[i] != DisplayError
    ensures |r| < |links| ==> r != [] && r[|r| - 1] == DisplayError
    decreases |links|
  {
    if links == [] then []
    else if LinkVerdict(links[0]) == DisplayError then [DisplayError]
    else [LinkVerdict(links[0])] + ShownVerdicts(links[1..])
  }

  // ---- the `overwrite` form field ----

  function LowerChar(c: char): char
  {
    if 'A' <= c <= 'Z' then (c as int + 32) as char else c
  }

  /** `str.lower()` on ASCII letters. */
  function Lower(s: string): (r: string)
    ensures |r| == |s| && forall i :: 0 <= i < |s| ==> r[i] == LowerChar(s[i])
    decreases |s|
  {
    if s == [] then [] else [LowerChar(s[0])] + Lower(s[1..])
  }

  /** `str(b)` for a Python boolean. */
  function PyBoolStr(b: bool): string
  {
    if b then "True" else "False"
  }

  /** `str(overwrite).lower()`, sent with every upload. */
  function OverwriteField(overwrite: bool): string
  {
    Lower(PyBoolStr(overwrite))
  }

  /** How a form field reads as a boolean on the receiving side. */
  function ParseFormBool(s: string): Option<bool>
  {
    if s == "true" then Some(true) else if s == "false" then Some(false) else None
  }

  /** The field is the lower-case word the server parses back to the flag. */
  lemma {:induction false} OverwriteRoundTrip(overwrite: bool)
    ensures OverwriteField(overwrite) == (if overwrite then "true" else "false")
    ensures ParseFormBool(OverwriteField(overwrite)) == Some(overwrite)
  {
    var r := OverwriteField(overwrite);
    var w := if overwrite then "true" else "false";
    assert |r| == |w|;
    forall i | 0 <= i < |r| ensures r[i] == w[i] {
      assert r[i] == LowerChar(PyBoolStr(overwrite)[i]);
    }
  }

  // ---- nested mkdir ----

  /** `[part.strip() for part in pieces if part.strip()]`, stripping `cs`. */
  function StrippedNonEmpty(pieces: seq<string>, cs: set<char>): (parts: seq<string>)
    ensures |parts| <= |pieces|
    ensures forall i :: 0 <= i < |parts| ==> parts[i] != [] && Unpadded(parts[i], cs)
    decreases |pieces|
  {
    if pieces == [] then []
    else
      var t := Strip(pieces[0], cs);
      StripUnpadded(pieces[0], cs);
      (if t == [] then [] else [t]) + StrippedNonEmpty(pieces[1..], cs)
  }

  /** Neither end of `s` is in `cs`. */
  predicate Unpadded(s: string, cs: set<char>)
  {
    s == [] || (s[0] !in cs && s[|s| - 1] !in cs)
  }

  lemma {:induction false} StripUnpadded(s: string, cs: set<char>)
    ensures Unpadded(Strip(s, cs), cs)
  {
    var l := LStrip(s, cs);
    var r := RStrip(l, cs);
    if r != [] {
      assert r[0] == l[0];
    }
  }

  /** Stripping keeps only characters of the original. */
  lemma {:induction false} StripSubset(s: string, cs: set<char>)
    ensures forall c :: c in Strip(s, cs) ==> c in s
  {
    var l := LStrip(s, cs);
    assert forall c :: c in RStrip(l, cs) ==> c in l;
    assert forall c :: c in l ==> c in s;
  }

  lemma {:induction false} SlashFree(pieces: seq<string>, cs: set<char>)
    requires forall i :: 0 <= i < |pieces| ==> '/' !in pieces[i]
    ensures forall i :: 0 <= i < |StrippedNonEmpty(pieces, cs)| ==> '/' !in StrippedNonEmpty(pieces, cs)[i]
    decreases |pieces|
  {
    if pieces != [] {
      StripSubset(pieces[0], cs);
      SlashFree(pieces[1..], cs);
    }
  }

  /** The folder names a nested `mkdir` path creates, outermost first: the
      slash-separated pieces, each stripped of whitespace, blank ones dropped. */
  function MkdirParts(path: string): (parts: seq<string>)
    ensures forall i :: 0 <= i < |parts| ==> parts[i] != [] && '/' !in parts[i]
    ensures forall i :: 0 <= i < |parts| ==> Unpadded(parts[i], Whitespace)
  {
    SlashFree(Split(path, '/'), Whitespace);
    StrippedNonEmpty(Split(path, '/'), Whitespace)
  }

  /** A name with no slash and none of `cs` at either end. */
  predicate CleanName(n: string, cs: set<char>)
  {
    n != [] && '/' !in n && n[0] !in cs && n[|n| - 1] !in cs
  }

  lemma {:induction false} StrippedClean(names: seq<string>, cs: set<char>)
    requires forall i :: 0 <= i < |names| ==> CleanName(names[i], cs)
    ensures StrippedNonEmpty(names, cs) == names
    decreases |names|
  {
    if names != [] {
      StripClean(names[0], cs);
      StrippedClean(names[1..], cs);
      assert [names[0]] + names[1..] == names;
    }
  }

  /** Names without slashes or surrounding whitespace, joined by slashes,
      split back into the same names. */
  lemma {:induction false} MkdirPartsOfJoin(names: seq<string>)
    requires |names| >= 1
    requires forall i :: 0 <= i < |names| ==> CleanName(names[i], Whitespace)
    ensures MkdirParts(Join(names, '/')) == names
  {
    SplitJoin(names, '/');
    StrippedClean(names, Whitespace);
  }

  /** A piece of blanks contributes no name. */
  lemma {:induction false} StrippedSkipsBlank(pieces: seq<string>, cs: set<char>)
    requires forall i :: 0 <= i < |pieces| ==> forall c :: c in pieces[i] ==> c in cs
    ensures StrippedNonEmpty(pieces, cs) == []
    decreases |pieces|
  {
    if pieces != [] {
      StripSubset(pieces[0], cs);
      StripUnpadded(pieces[0], cs);
      assert Strip(pieces[0], cs) == [];
      StrippedSkipsBlank(pieces[1..], cs);
    }
  }

  /** Splitting after a run of pieces adds their names in order. */
  lemma {:induction false} StrippedAppend(a: seq<string>, b: seq<string>, cs: set<char>)
    ensures StrippedNonEmpty(a + b, cs) == StrippedNonEmpty(a, cs) + StrippedNonEmpty(b, cs)
    decreases |a|
  {
    if a != [] {
      var head := if Strip(a[0], cs) == [] then [] else [Strip(a[0], cs)];
      assert (a + b)[0] == a[0] && (a + b)[1..] == a[1..] + b;
      assert StrippedNonEmpty(a + b, cs) == head + StrippedNonEmpty(a[1..] + b, cs);
      StrippedAppend(a[1..], b, cs);
      assert StrippedNonEmpty(a, cs) == head + StrippedNonEmpty(a[1..], cs);
    } else {
      assert a + b == b;
    }
  }

  /** Doubled, leading and trailing slashes and blank pieces create nothing:
      the names are those of the pieces that are not blank, in order. */
  lemma {:induction false} MkdirSkipsBlank(names: seq<string>, blanks: seq<string>, path: seq<string>)
    requires |path| >= 1
    requires forall i :: 0 <= i < |path| ==> '/' !in path[i]
    requires forall i :: 0 <= i < |blanks| ==> forall c :: c in blanks[i] ==> c in Whitespace
    requires forall i :: 0 <= i < |names| ==> CleanName(names[i], Whitespace)
    requires path == blanks + names || path == names + blanks
    ensures MkdirParts(Join(path, '/')) == names
  {
    SplitJoin(path, '/');
    StrippedSkipsBlank(blanks, Whitespace);
    StrippedClean(names, Whitespace);
    if path == blanks + names {
      StrippedAppend(blanks, names, Whitespace);
    } else {
      StrippedAppend(names, blanks, Whitespace);
    }
  }
}
