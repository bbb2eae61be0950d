/**
 * The case-study detail page: validating the route id before anything is
 * fetched, the list of other case studies, and the PDF download with the
 * file name it derives from the title.
 */
module CaseStudyPage {
  import opened Common
  import opened JsString

  /** `pdfUrl` is `None` when the record has none (`null` or `undefined`). */
  datatype CaseStudy = CaseStudy(id: int, title: string, content: string, pdfUrl: Option<string>)

  const LoadFailedMessage := "Failed to load case study. Please try again later."
  const NoPdfMessage := "PDF file is not available for download."

  /** What `loadData` does for a route id: nothing, fail with an error, or fetch one id. */
  datatype LoadStep = NoLoad | LoadFailed(message: string) | Fetch(caseStudyId: int)

  /**
   * `loadData`'s checks before its first request: a missing or empty id
   * does nothing; an id `parseInt` reads as `NaN` throws the invalid-id
   * error, which the page shows as its load-failure message.
   */
  function LoadCaseStudy(routeId: Option<string>): (r: LoadStep)
    ensures r.NoLoad? <==> routeId.None? || routeId.value == []
    ensures r.Fetch? <==> routeId.Some? && ParseInt(routeId.value).Some?
    ensures r.Fetch? ==> ParseInt(routeId.value) == Some(r.caseStudyId)
    ensures r.LoadFailed? ==> r.message == LoadFailedMessage
  {
    if routeId.None? || routeId.value == [] then NoLoad
    else match ParseInt(routeId.value)
      case None => LoadFailed(LoadFailedMessage)
      case Some(k) => Fetch(k)
  }

  /** An id with no digit where `parseInt` looks for one is refused before any fetch. */
  lemma NonNumericIdFails(routeId: string)
    requires routeId != []
    requires var u := Unsigned(routeId); u == [] || !IsDigit(u[0], 10)
    ensures LoadCaseStudy(Some(routeId)) == LoadFailed(LoadFailedMessage)
  {
  }

  /** `allCaseStudies.filter(cs => cs.id !== caseStudyId)`. */
  function OtherCaseStudies(all: seq<CaseStudy>, caseStudyId: int): (r: seq<CaseStudy>)
  {
    Filter(all, (cs: CaseStudy) => cs.id != caseStudyId)
  }

  /** The other case studies are exactly the listed ones with another id, in their listed order. */
  lemma OtherCaseStudiesExact(all: seq<CaseStudy>, caseStudyId: int)
    ensures forall cs :: cs in OtherCaseStudies(all, caseStudyId) <==> cs in all && cs.id != caseStudyId
    ensures Subsequence(OtherCaseStudies(all, caseStudyId), all)
  {
    var p := (cs: CaseStudy) => cs.id != caseStudyId;
    FilterMembers(all, p);
    FilterIsSubsequence(all, p);
  }

  // ------------------------------------------------------------- file name

  /** The index just past the run of white space starting at `i`. */
  function SpaceRunEnd(s: string, i: nat): (k: nat)
    requires i <= |s|
    ensures i <= k <= |s|
    ensures forall j :: i <= j < k ==> IsSpace(s[j])
    ensures k == |s| || !IsSpace(s[k])
    decreases |s| - i
  {
    if i == |s| || !IsSpace(s[i]) then i else SpaceRunEnd(s, i + 1)
  }

  /** `s.replace(/\s+/g, '-')`: every maximal run of white space becomes one `-`. */
  function DashSpaces(s: string): (r: string)
    ensures forall i :: 0 <= i < |r| ==> !IsSpace(r[i])
    ensures |r| <= |s|
    decreases |s|
  {
    if s == [] then []
    else if IsSpace(s[0]) then ['-'] + DashSpaces(s[SpaceRunEnd(s, 1)..])
    else [s[0]] + DashSpaces(s[1..])
  }

  /** Text without white space is left as it is. */
  lemma {:induction false} DashSpacesPlain(a: string, rest: string)
    requires forall i :: 0 <= i < |a| ==> !IsSpace(a[i])
    ensures DashSpaces(a + rest) == a + DashSpaces(rest)
    decreases |a|
  {
    if a == [] {
      assert a + rest == rest;
    } else {
      var s := a + rest;
      assert s[0] == a[0] && s[1..] == a[1..] + rest;
      DashSpacesPlain(a[1..], rest);
      assert a == [a[0]] + a[1..];
    }
  }

  /** A whole run of white space, however long, turns into a single `-`. */
  lemma DashSpacesRun(run: string, rest: string)
    requires run != [] && AllSpace(run)
    requires rest == [] || !IsSpace(rest[0])
    ensures DashSpaces(run + rest) == ['-'] + DashSpaces(rest)
  {
    var s := run + rest;
    assert IsSpace(s[0]);
    var k := SpaceRunEnd(s, 1);
    assert forall j :: 0 <= j < |run| ==> s[j] == run[j];
    assert |s| == |run| || s[|run|] == rest[0];
    assert k == |run|;
    assert s[k..] == rest;
  }

  /** `c.toLowerCase()` on the ASCII letters. */
  function LowerChar(c: char): (d: char)
    ensures !('A' <= d <= 'Z')
    ensures IsSpace(d) <==> IsSpace(c)
    ensures !('A' <= c <= 'Z') ==> d == c
  {
    if 'A' <= c <= 'Z' then (c as int - 'A' as int + 'a' as int) as char else c
  }

  /** `s.toLowerCase()`, character by character. */
  function ToLower(s: string): (r: string)
    ensures |r| == |s|
    ensures forall i :: 0 <= i < |s| ==> r[i] == LowerChar(s[i])
  {
    MapSeq(LowerChar, s)
  }

  /** Lower-casing twice is lower-casing once. */
  lemma ToLowerIdempotent(s: string)
    ensures ToLower(ToLower(s)) == ToLower(s)
  {
  }

  const PdfSuffix := "-case-study.pdf"

  /** The `download` name: the dashed, lower-cased title followed by `-case-study.pdf`. */
  function PdfFileName(title: string): (r: string)
    ensures |r| >= |PdfSuffix| && r[|r| - |PdfSuffix|..] == PdfSuffix
    ensures r[..|r| - |PdfSuffix|] == ToLower(DashSpaces(title))
    ensures forall i :: 0 <= i < |r| ==> !IsSpace(r[i]) && !('A' <= r[i] <= 'Z')
  {
    var stem := ToLower(DashSpaces(title));
    var r := stem + PdfSuffix;
    assert r[|stem|..] == PdfSuffix && r[..|stem|] == stem;
    PlainJoin(stem, PdfSuffix);
    r
  }

  /** Joining two strings without white space or capitals gives one without them. */
  lemma PlainJoin(a: string, b: string)
    requires forall i :: 0 <= i < |a| ==> !IsSpace(a[i]) && !('A' <= a[i] <= 'Z')
    requires b == PdfSuffix
    ensures forall i :: 0 <= i < |a + b| ==> !IsSpace((a + b)[i]) && !('A' <= (a + b)[i] <= 'Z')
  {
    assert forall i :: 0 <= i < |b| ==> !IsSpace(b[i]) && !('A' <= b[i] <= 'Z');
  }

  /** A link the page clicks to download a file. */
  datatype Download = Download(href: string, fileName: string)

  /**
   * `handleDownloadPdf`: with no case study or an empty `pdfUrl` only the
   * not-available alert is shown; otherwise the PDF's URL is downloaded
   * under the file name derived from the title.
   */
  function DownloadPdf(cs: Option<CaseStudy>): (r: Result<Download, string>)
    ensures r.Err? <==> cs.None? || cs.value.pdfUrl.None? || cs.value.pdfUrl.value == []
    ensures r.Err? ==> r.error == NoPdfMessage
    ensures r.Ok? ==> r.value.href == cs.value.pdfUrl.value && r.value.fileName == PdfFileName(cs.value.title)
  {
    if cs.None? || cs.value.pdfUrl.None? || cs.value.pdfUrl.value == [] then Err(NoPdfMessage)
    else Ok(Download(cs.value.pdfUrl.value, PdfFileName(cs.value.title)))
  }
}
