/** The two URL rewrites of app.tsx. `fixImageUrl` turns a Google Drive
    sharing link into a direct image link; the sync turns a Google Sheets
    viewer link into its CSV export link. Both locate a document id with a
    regular expression of the shape `(?:marker1|marker2|...)([A-Za-z0-9_-]{25,})`,
    modelled here as an explicit leftmost scan. */
module Urls {
  import opened Wrappers
  import opened Text

  /** `[a-zA-Z0-9_-]`. */
  predicate IsTokenChar(c: char) {
    ('a' <= c <= 'z') || ('A' <= c <= 'Z') || ('0' <= c <= '9') || c == '_' || c == '-'
  }

  predicate IsToken(t: string) {
    forall k :: 0 <= k < |t| ==> IsTokenChar(t[k])
  }

  /** The `{25,}` of both expressions. */
  const MinTokenLength: nat := 25

  /** Length of the greedy run of token characters starting at `from`. */
  function TokenRun(s: string, from: nat): (n: nat)
    requires from <= |s|
    ensures from + n <= |s|
    ensures IsToken(s[from..from + n])
    ensures from + n == |s| || !IsTokenChar(s[from + n])
    decreases |s| - from
  {
    if from < |s| && IsTokenChar(s[from]) then
      var n := 1 + TokenRun(s, from + 1);
      assert s[from..from + n] == [s[from]] + s[from + 1..from + n];
      n
    else 0
  }

  /** Alternative `m` matches at `i`: it occurs there and at least 25 token
      characters follow it. */
  predicate Viable(s: string, i: nat, m: string)
    requires i <= |s|
  {
    OccursAt(s, m, i) && TokenRun(s, i + |m|) >= MinTokenLength
  }

  /** What the greedy group captures behind alternative `m` at `i`. */
  function Capture(s: string, i: nat, m: string): (tok: string)
    requires i <= |s| && OccursAt(s, m, i)
    ensures IsToken(tok) && |tok| == TokenRun(s, i + |m|)
  {
    s[i + |m|..i + |m| + TokenRun(s, i + |m|)]
  }

  /** The expression tried at position `i` with the alternatives from index
      `k` on: the first one that is viable decides. */
  function MatchAtFrom(s: string, i: nat, markers: seq<string>, k: nat): (r: Option<string>)
    requires i <= |s|
    ensures r.Some? ==>
              exists k' :: k <= k' < |markers| && Viable(s, i, markers[k'])
                           && r.value == Capture(s, i, markers[k'])
    ensures r.Some? ==> IsToken(r.value) && |r.value| >= MinTokenLength
    ensures r.None? <==> forall k' :: k <= k' < |markers| ==> !Viable(s, i, markers[k'])
    decreases |markers| - k
  {
    if k >= |markers| then None
    else if Viable(s, i, markers[k]) then Some(Capture(s, i, markers[k]))
    else MatchAtFrom(s, i, markers, k + 1)
  }

  /** The capture when the expression is tried at position `i`. */
  function MatchAt(s: string, i: nat, markers: seq<string>): Option<string>
    requires i <= |s|
  {
    MatchAtFrom(s, i, markers, 0)
  }

  /** The expression matches at no position in `[a, b)`. */
  predicate NoMatchBetween(s: string, a: nat, b: nat, markers: seq<string>)
    requires b <= |s| + 1
  {
    forall j :: a <= j < b ==> MatchAt(s, j, markers).None?
  }

  /** `s.match(re)` for a non-global `re`: the capture at the leftmost
      position at or after `from` where the expression matches. */
  function FirstMatch(s: string, from: nat, markers: seq<string>): (r: Option<string>)
    requires from <= |s|
    ensures r.Some? ==> IsToken(r.value) && |r.value| >= MinTokenLength
    decreases |s| - from
  {
    var here := MatchAt(s, from, markers);
    if here.Some? || from == |s| then here
    else FirstMatch(s, from + 1, markers)
  }

  /** The scan finds the leftmost match: a result is the capture at some
      position with no match before it, and no result means no position
      matches. */
  lemma {:induction false} FirstMatchLeftmost(s: string, from: nat, markers: seq<string>)
    requires from <= |s|
    ensures FirstMatch(s, from, markers).Some? ==>
              exists i :: from <= i <= |s| && MatchAt(s, i, markers) == FirstMatch(s, from, markers)
                          && NoMatchBetween(s, from, i, markers)
    ensures FirstMatch(s, from, markers).None? ==> NoMatchBetween(s, from, |s| + 1, markers)
    decreases |s| - from
  {
    if MatchAt(s, from, markers).Some? {
      assert NoMatchBetween(s, from, from, markers);
    } else if from < |s| {
      FirstMatchLeftmost(s, from + 1, markers);
    }
  }

  /** What the scan returns is a run of at least 25 token characters. */
  lemma FirstMatchToken(s: string, from: nat, markers: seq<string>)
    requires from <= |s|
    ensures FirstMatch(s, from, markers).Some? ==>
              IsToken(FirstMatch(s, from, markers).value) && |FirstMatch(s, from, markers).value| >= MinTokenLength
  {
    FirstMatchLeftmost(s, from, markers);
  }

  // ---------------------------------------------------------------------------
  // The leftmost match behind a fixed prefix

  /** Every alternative is at least three characters long. */
  predicate LongMarkers(markers: seq<string>) {
    forall k :: 0 <= k < |markers| ==> |markers[k]| >= 3
  }

  /** No two alternatives start with the same character. */
  predicate DistinctHeads(markers: seq<string>)
    requires LongMarkers(markers)
  {
    forall k, l :: 0 <= k < l < |markers| ==> markers[k][0] != markers[l][0]
  }

  /** At no position `j < n` of `p` do the first three characters of an
      alternative appear. */
  predicate NoMarkerHeadBefore(p: string, markers: seq<string>, n: nat)
    requires LongMarkers(markers) && n + 2 <= |p|
  {
    forall j, k :: 0 <= j < n && 0 <= k < |markers| ==>
      !(p[j] == markers[k][0] && p[j + 1] == markers[k][1] && p[j + 2] == markers[k][2])
  }

  lemma NoMatchInPrefix(p: string, markers: seq<string>, n: nat, s: string, j: nat)
    requires LongMarkers(markers) && n + 2 <= |p| && p <= s
    requires NoMarkerHeadBefore(p, markers, n)
    requires j < n
    ensures MatchAt(s, j, markers).None?
  {
    assert s[j] == p[j] && s[j + 1] == p[j + 1] && s[j + 2] == p[j + 2];
    forall k | 0 <= k < |markers|
      ensures !OccursAt(s, markers[k], j)
    {
      OccursAtHead(s, markers[k], j);
    }
  }

  lemma OccursAtHead(s: string, m: string, j: nat)
    requires |m| >= 3
    ensures OccursAt(s, m, j) ==> s[j] == m[0] && s[j + 1] == m[1] && s[j + 2] == m[2]
  {
    if OccursAt(s, m, j) {
      assert s[j..j + |m|][0] == s[j] && s[j..j + |m|][1] == s[j + 1] && s[j..j + |m|][2] == s[j + 2];
    }
  }

  lemma MatchAtOnly(s: string, i: nat, markers: seq<string>, k: nat)
    requires i <= |s| && LongMarkers(markers) && DistinctHeads(markers)
    requires k < |markers| && Viable(s, i, markers[k])
    ensures MatchAt(s, i, markers) == Some(Capture(s, i, markers[k]))
  {
    forall l | 0 <= l < |markers|
      ensures OccursAt(s, markers[l], i) ==> s[i] == markers[l][0]
    {
      OccursAtHead(s, markers[l], i);
    }
  }

  /** The run of a token followed by a non-token character is the token. */
  lemma TokenRunExact(s: string, from: nat, tok: string)
    requires from + |tok| <= |s| && s[from..from + |tok|] == tok && IsToken(tok)
    requires from + |tok| == |s| || !IsTokenChar(s[from + |tok|])
    ensures TokenRun(s, from) == |tok|
  {
    var n := TokenRun(s, from);
    if n < |tok| {
      assert false;
    }
    if n > |tok| {
      assert false;
    }
  }

  /** Behind a prefix `p` that ends with alternative `markers[k]` and holds no
      other start of an alternative, the leftmost match captures exactly the
      token that follows. */
  lemma FirstMatchBehindPrefix(p: string, markers: seq<string>, k: nat, tok: string, rest: string)
    requires LongMarkers(markers) && DistinctHeads(markers) && k < |markers|
    requires |markers[k]| <= |p| && p[|p| - |markers[k]|..] == markers[k]
    requires NoMarkerHeadBefore(p, markers, |p| - |markers[k]|)
    requires IsToken(tok) && |tok| >= MinTokenLength
    requires rest == [] || !IsTokenChar(rest[0])
    ensures FirstMatch(p + tok + rest, 0, markers) == Some(tok)
  {
    var s := p + tok + rest;
    var at := |p| - |markers[k]|;
    assert p <= s;
    assert OccursAt(s, markers[k], at) by {
      assert s[at..at + |markers[k]|] == p[at..];
    }
    TokenRunAfterPrefix(p, tok, rest);
    MatchAtOnly(s, at, markers, k);
    assert Capture(s, at, markers[k]) == tok by {
      assert s[|p|..|p| + |tok|] == tok;
    }
    forall j | 0 <= j < at ensures MatchAt(s, j, markers).None? {
      NoMatchInPrefix(p, markers, at, s, j);
    }
    FirstMatchSkips(s, 0, at, markers);
  }

  lemma TokenRunAfterPrefix(p: string, tok: string, rest: string)
    requires IsToken(tok)
    requires rest == [] || !IsTokenChar(rest[0])
    ensures TokenRun(p + tok + rest, |p|) == |tok|
  {
    var s := p + tok + rest;
    assert s[|p|..|p| + |tok|] == tok;
    if rest != [] { assert s[|p| + |tok|] == rest[0]; }
    TokenRunExact(s, |p|, tok);
  }

  lemma {:induction false} FirstMatchSkips(s: string, from: nat, at: nat, markers: seq<string>)
    requires from <= at <= |s|
    requires NoMatchBetween(s, from, at, markers)
    ensures FirstMatch(s, from, markers) == FirstMatch(s, at, markers)
    decreases at - from
  {
    if from < at {
      assert MatchAt(s, from, markers).None?;
      assert FirstMatch(s, from, markers) == FirstMatch(s, from + 1, markers);
      FirstMatchSkips(s, from + 1, at, markers);
    }
  }

  // ---------------------------------------------------------------------------
  // fixImageUrl

  const DriveMarkers: seq<string> := ["id=", "/d/", "folders/"]
  const DirectImagePrefix: string := "https://lh3.googleusercontent.com/d/"

  predicate IsDriveHost(url: string) {
    Contains(url, "drive.google.com") || Contains(url, "docs.google.com")
  }

  /** `fixImageUrl`: an empty URL stays empty; a Drive or Docs link with a
      25+ character id after `id=`, `/d/` or `folders/` becomes the direct
      image link for that id; anything else is returned as it is. */
  function FixImageUrl(url: string): (r: string)
    ensures url == [] ==> r == []
    ensures url != [] && IsDriveHost(url) && FirstMatch(url, 0, DriveMarkers).Some? ==>
              r == DirectImagePrefix + FirstMatch(url, 0, DriveMarkers).value
    ensures !(IsDriveHost(url) && FirstMatch(url, 0, DriveMarkers).Some?) ==> r == url
  {
    if url == [] then []
    else
      match FirstMatch(url, 0, DriveMarkers)
      case Some(tok) => if IsDriveHost(url) then DirectImagePrefix + tok else url
      case None => url
  }

  lemma DriveMarkersShape()
    ensures LongMarkers(DriveMarkers) && DistinctHeads(DriveMarkers)
    ensures DirectImagePrefix[33..] == DriveMarkers[1]
    ensures NoMarkerHeadBefore(DirectImagePrefix, DriveMarkers, 33)
  {
    assert DirectImagePrefix[33..] == "/d/";
    DirectImageNoHead();
  }

  /** No marker starts inside `https://lh3.googleusercontent.com`: it holds no
      `i`, no `f`, and no `/` followed by `d`. */
  lemma DirectImageNoHead()
    ensures LongMarkers(DriveMarkers)
    ensures NoMarkerHeadBefore(DirectImagePrefix, DriveMarkers, 33)
  {
    var p := DirectImagePrefix;
    assert forall j :: 0 <= j < 33 ==> p[j] != 'i' && p[j] != 'f' && (p[j] == '/' ==> p[j + 1] != 'd');
    assert DriveMarkers[0][0] == 'i' && DriveMarkers[1][0] == '/' && DriveMarkers[1][1] == 'd';
    assert DriveMarkers[2][0] == 'f';
  }

  /** The direct image link of a token is found again by the expression. */
  lemma DirectLinkToken(tok: string)
    requires IsToken(tok) && |tok| >= MinTokenLength
    ensures FirstMatch(DirectImagePrefix + tok, 0, DriveMarkers) == Some(tok)
  {
    DriveMarkersShape();
    FirstMatchBehindPrefix(DirectImagePrefix, DriveMarkers, 1, tok, []);
    assert DirectImagePrefix + tok + [] == DirectImagePrefix + tok;
  }

  /** Rewriting an image link twice is rewriting it once. */
  lemma FixImageUrlIdempotent(url: string)
    ensures FixImageUrl(FixImageUrl(url)) == FixImageUrl(url)
  {
    if url != [] && IsDriveHost(url) && FirstMatch(url, 0, DriveMarkers).Some? {
      FirstMatchToken(url, 0, DriveMarkers);
      DirectLinkToken(FirstMatch(url, 0, DriveMarkers).value);
    }
  }

  // ---------------------------------------------------------------------------
  // The CSV export link of the sync

  const SheetMarkers: seq<string> := ["/d/"]
  const ExportPrefix: string := "https://docs.google.com/spreadsheets/d/"
  const ExportSuffix: string := "/export?format=csv&gid=0"

  /** The URL the sync fetches: a `docs.google.com` link with a 25+ character
      id after `/d/` becomes the CSV export link of that id's first sheet; any
      other string is used verbatim. */
  function SheetCsvUrl(sheetId: string): (r: string)
    ensures Contains(sheetId, "docs.google.com") && FirstMatch(sheetId, 0, SheetMarkers).Some? ==>
              r == ExportPrefix + FirstMatch(sheetId, 0, SheetMarkers).value + ExportSuffix
    ensures !(Contains(sheetId, "docs.google.com") && FirstMatch(sheetId, 0, SheetMarkers).Some?) ==>
              r == sheetId
  {
    if Contains(sheetId, "docs.google.com") then
      match FirstMatch(sheetId, 0, SheetMarkers)
      case Some(tok) => ExportPrefix + tok + ExportSuffix
      case None => sheetId
    else sheetId
  }

  lemma SheetMarkersShape()
    ensures LongMarkers(SheetMarkers) && DistinctHeads(SheetMarkers)
    ensures ExportPrefix[36..] == SheetMarkers[0]
    ensures NoMarkerHeadBefore(ExportPrefix, SheetMarkers, 36)
  {
    var p := ExportPrefix;
    assert p[36..] == "/d/";
    assert forall j :: 0 <= j < 36 ==> (p[j] == '/' ==> p[j + 1] != 'd' || p[j + 2] != '/');
  }

  /** The host of the export link is the Docs host. */
  lemma ExportHost(s: string)
    requires ExportPrefix <= s
    ensures Contains(s, "docs.google.com")
  {
    assert ExportPrefix == "https://" + "docs.google.com" + "/spreadsheets/d/";
    assert s[8..23] == "docs.google.com";
    assert OccursAt(s, "docs.google.com", 8);
  }

  /** A Sheets link `.../spreadsheets/d/<id><rest>`, where `rest` does not go
      on with token characters (`/edit#gid=0`, say), is rewritten to the
      export link of `<id>`. */
  lemma SheetLinkRewritten(tok: string, rest: string)
    requires IsToken(tok) && |tok| >= MinTokenLength
    requires rest == [] || !IsTokenChar(rest[0])
    ensures SheetCsvUrl(ExportPrefix + tok + rest) == ExportPrefix + tok + ExportSuffix
  {
    SheetMarkersShape();
    FirstMatchBehindPrefix(ExportPrefix, SheetMarkers, 0, tok, rest);
    ExportHost(ExportPrefix + tok + rest);
  }

  /** Rewriting a sheet link twice is rewriting it once. */
  lemma SheetCsvUrlIdempotent(sheetId: string)
    ensures SheetCsvUrl(SheetCsvUrl(sheetId)) == SheetCsvUrl(sheetId)
  {
    if Contains(sheetId, "docs.google.com") && FirstMatch(sheetId, 0, SheetMarkers).Some? {
      FirstMatchToken(sheetId, 0, SheetMarkers);
      SheetLinkRewritten(FirstMatch(sheetId, 0, SheetMarkers).value, ExportSuffix);
    }
  }
}
