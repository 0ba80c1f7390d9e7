/** The `/api/download` route: among the directory's file names, keep the
    reports, read a timestamp out of each name, and serve the newest one. The
    directory listing is an input (`None` when reading the directory throws). */
module DownloadRoute {
  import opened Wrappers
  import opened Decimal
  import opened Report

  datatype DownloadResponse =
    | Attachment(file: string, contentDisposition: string, contentType: string)
    | JsonError(status: nat, error: string)

  predicate StartsWith(s: string, prefix: string) {
    |prefix| <= |s| && s[..|prefix|] == prefix
  }

  predicate EndsWith(s: string, suffix: string) {
    |suffix| <= |s| && s[|s| - |suffix|..] == suffix
  }

  /** `file.startsWith("missing-images-") && file.endsWith(".csv")` */
  predicate IsCandidate(file: string) {
    StartsWith(file, ReportPrefix) && EndsWith(file, ReportSuffix)
  }

  /** The names that pass the filter, in listing order. */
  function Candidates(files: seq<string>): (cs: seq<string>)
    ensures forall f :: f in cs <==> f in files && IsCandidate(f)
    ensures |cs| <= |files|
  {
    if files == [] then []
    else if IsCandidate(files[0]) then [files[0]] + Candidates(files[1..])
    else Candidates(files[1..])
  }

  /** The filter keeps the listing order: filtering a concatenation filters
      each part and joins the results. */
  lemma {:induction false} CandidatesConcat(a: seq<string>, b: seq<string>)
    ensures Candidates(a + b) == Candidates(a) + Candidates(b)
  {
    if a == [] {
      assert a + b == b;
    } else {
      assert (a + b)[1..] == a[1..] + b;
      CandidatesConcat(a[1..], b);
    }
  }

  /** A single name is kept exactly when it is a report candidate. */
  lemma CandidatesOne(f: string)
    ensures Candidates([f]) == if IsCandidate(f) then [f] else []
  {
    assert [f][1..] == [];
  }

  /** `s.split(sep)` for a one-character separator. */
  function Split(s: string, sep: char): (parts: seq<string>)
    ensures |parts| >= 1
  {
    if s == [] then [""]
    else
      var rest := Split(s[1..], sep);
      if s[0] == sep then [""] + rest else [[s[0]] + rest[0]] + rest[1..]
  }

  /** `parseInt(file.split("-")[2].split(".")[0], 10)` for a field that starts
      with a digit: the digits up to the first non-digit, read in decimal.
      `None` stands for a field that does not start with a digit. That covers
      every `NaN`, and also the fields `parseInt` still reads after skipping
      leading white space or a sign. */
  function Timestamp(file: string): Option<nat> {
    var parts := Split(file, '-');
    if |parts| < 3 then None
    else
      var digits := LeadingDigits(Split(parts[2], '.')[0]);
      if digits == [] then None else Some(Value(digits))
  }

  /** Every report candidate has a numeric timestamp. */
  ghost predicate WellFormed(files: seq<string>) {
    forall f :: f in files && IsCandidate(f) ==> Timestamp(f).Some?
  }

  /** The sort key: the timestamp of a name, which every report candidate
      of a well-formed listing has. */
  function Key(file: string): nat {
    Timestamp(file).GetOr(0)
  }

  /** The position of the first name whose timestamp no other name exceeds:
      the name a stable descending sort puts first. */
  function LatestIndex(cands: seq<string>): (k: nat)
    requires |cands| > 0
    ensures k < |cands|
    ensures forall j :: 0 <= j < |cands| ==> Key(cands[j]) <= Key(cands[k])
    ensures forall j :: 0 <= j < k ==> Key(cands[j]) < Key(cands[k])
  {
    if |cands| == 1 then 0
    else
      var k' := LatestIndex(cands[1..]) + 1;
      if Key(cands[0]) >= Key(cands[k']) then 0 else k'
  }

  /** Timestamps never increase along the list. */
  ghost predicate NewestFirst(s: seq<string>) {
    forall i, j :: 0 <= i < j < |s| ==> Key(s[i]) >= Key(s[j])
  }

  /** A stable insertion into a list already sorted by descending timestamp:
      `x` goes before the first element whose timestamp it reaches. */
  function Insert(x: string, sorted: seq<string>): seq<string> {
    if sorted == [] || Key(x) >= Key(sorted[0]) then [x] + sorted
    else [sorted[0]] + Insert(x, sorted[1..])
  }

  /** `files.sort((a, b) => timeB - timeA)`: a stable sort, newest first. */
  function SortNewestFirst(cands: seq<string>): seq<string> {
    if cands == [] then [] else Insert(cands[0], SortNewestFirst(cands[1..]))
  }

  /** Insertion adds `x` and loses nothing. */
  lemma {:induction false} InsertKeeps(x: string, sorted: seq<string>)
    ensures multiset(Insert(x, sorted)) == multiset(sorted) + multiset{x}
  {
    if sorted != [] && Key(x) < Key(sorted[0]) {
      InsertKeeps(x, sorted[1..]);
      assert sorted == [sorted[0]] + sorted[1..];
    }
  }

  /** The head of a list sorted newest first is at least as new as every name in it. */
  lemma HeadIsNewest(sorted: seq<string>)
    requires NewestFirst(sorted)
    ensures forall f :: f in sorted ==> Key(f) <= Key(sorted[0])
  {
    forall f | f in sorted
      ensures Key(f) <= Key(sorted[0])
    {
      var k :| 0 <= k < |sorted| && sorted[k] == f;
      if k > 0 {
        assert Key(sorted[0]) >= Key(sorted[k]);
      }
    }
  }

  /** A name at least as new as every name of a sorted list can go in front of it. */
  lemma NewestFirstCons(h: string, t: seq<string>)
    requires NewestFirst(t)
    requires forall f :: f in t ==> Key(f) <= Key(h)
    ensures NewestFirst([h] + t)
  {
    var s := [h] + t;
    forall i, j | 0 <= i < j < |s|
      ensures Key(s[i]) >= Key(s[j])
    {
      assert s[j] == t[j - 1];
      if i > 0 {
        assert s[i] == t[i - 1];
      } else {
        assert s[j] in t;
      }
    }
  }

  /** Insertion into a sorted list keeps it sorted. */
  lemma {:induction false} InsertSorted(x: string, sorted: seq<string>)
    requires NewestFirst(sorted)
    ensures NewestFirst(Insert(x, sorted))
  {
    if sorted == [] || Key(x) >= Key(sorted[0]) {
      if sorted != [] {
        HeadIsNewest(sorted);
      }
      NewestFirstCons(x, sorted);
    } else {
      var rest := sorted[1..];
      assert NewestFirst(rest) by {
        forall i, j | 0 <= i < j < |rest|
          ensures Key(rest[i]) >= Key(rest[j])
        {
          assert rest[i] == sorted[i + 1] && rest[j] == sorted[j + 1];
        }
      }
      InsertSorted(x, rest);
      InsertKeeps(x, rest);
      HeadIsNewest(sorted);
      var inserted := Insert(x, rest);
      forall f | f in inserted
        ensures Key(f) <= Key(sorted[0])
      {
        assert f in multiset(rest) + multiset{x};
        if f != x {
          assert f in rest;
          assert f in sorted;
        }
      }
      NewestFirstCons(sorted[0], inserted);
    }
  }

  /** The sort is a permutation of the candidates, newest first. */
  lemma {:induction false} SortIsSortedPermutation(cands: seq<string>)
    ensures multiset(SortNewestFirst(cands)) == multiset(cands)
    ensures NewestFirst(SortNewestFirst(cands))
  {
    if cands != [] {
      SortIsSortedPermutation(cands[1..]);
      InsertKeeps(cands[0], SortNewestFirst(cands[1..]));
      InsertSorted(cands[0], SortNewestFirst(cands[1..]));
      assert cands == [cands[0]] + cands[1..];
    }
  }

  /** The sort puts first exactly the name `LatestIndex` picks: taking `[0]`
      of the sorted list is taking the first of the newest reports. */
  lemma {:induction false} SortedHeadIsLatest(cands: seq<string>)
    requires |cands| > 0
    ensures |SortNewestFirst(cands)| == |cands|
    ensures SortNewestFirst(cands)[0] == cands[LatestIndex(cands)]
  {
    SortIsSortedPermutation(cands);
    assert |SortNewestFirst(cands)| == |cands| by {
      assert |multiset(SortNewestFirst(cands))| == |multiset(cands)|;
    }
    if |cands| > 1 {
      SortedHeadIsLatest(cands[1..]);
    }
  }

  function Latest(cands: seq<string>): string
    requires |cands| > 0
  {
    cands[LatestIndex(cands)]
  }

  /** `GET`: 500 when the directory cannot be read, 404 without a report,
      otherwise the newest report as an attachment. */
  function Get(listing: Option<seq<string>>): (r: DownloadResponse)
    requires listing.Some? ==> WellFormed(listing.value)
    ensures listing.None? <==> r == JsonError(500, "Failed to download CSV")
    ensures listing.Some? && Candidates(listing.value) == [] <==> r == JsonError(404, "No CSV file found")
    ensures listing.Some? && Candidates(listing.value) != [] ==> r.Attachment?
    ensures r.Attachment? ==>
      && listing.Some? && r.file in listing.value && IsCandidate(r.file)
      && r.contentDisposition == "attachment; filename=" + r.file
      && r.contentType == "text/csv"
      && forall f :: f in listing.value && IsCandidate(f) ==> Timestamp(f).value <= Timestamp(r.file).value
  {
    match listing
    case None => JsonError(500, "Failed to download CSV")
    case Some(files) =>
      var cands := Candidates(files);
      if |cands| == 0 then JsonError(404, "No CSV file found")
      else
        var latest := Latest(cands);
        Attachment(latest, "attachment; filename=" + latest, "text/csv")
  }

  /** `split` on a separator that does not occur in the head. */
  lemma {:induction false} SplitAtSeparator(a: string, sep: char, b: string)
    requires sep !in a
    ensures Split(a + [sep] + b, sep) == [a] + Split(b, sep)
  {
    if a != [] {
      assert (a + [sep] + b)[1..] == a[1..] + [sep] + b;
      SplitAtSeparator(a[1..], sep, b);
      assert a == [a[0]] + a[1..];
    } else {
      assert a + [sep] + b == [sep] + b;
    }
  }

  lemma {:induction false} SplitWithoutSeparator(a: string, sep: char)
    requires sep !in a
    ensures Split(a, sep) == [a]
  {
    if a != [] {
      SplitWithoutSeparator(a[1..], sep);
      assert a == [a[0]] + a[1..];
    }
  }

  /** The report prefix supplies the first two `-`-separated fields. */
  lemma PrefixFields(tail: string)
    ensures Split(ReportPrefix + tail, '-') == ["missing", "images"] + Split(tail, '-')
  {
    assert ReportPrefix + tail == "missing" + ['-'] + ("images" + ['-'] + tail);
    SplitAtSeparator("missing", '-', "images" + ['-'] + tail);
    SplitAtSeparator("images", '-', tail);
  }

  /** The field after the prefix, cut at its first `.`, is the digit text. */
  lemma TimestampFieldOfName(digits: string)
    requires AllDigits(digits)
    ensures Split(digits + ReportSuffix, '-') == [digits + ReportSuffix]
    ensures Split(digits + ReportSuffix, '.')[0] == digits
  {
    assert '-' !in digits + ReportSuffix by {
      assert forall i :: 0 <= i < |digits| ==> IsDigit(digits[i]);
    }
    SplitWithoutSeparator(digits + ReportSuffix, '-');
    assert '.' !in digits by {
      assert forall i :: 0 <= i < |digits| ==> IsDigit(digits[i]);
    }
    assert digits + ReportSuffix == digits + ['.'] + "csv";
    SplitAtSeparator(digits, '.', "csv");
  }

  /** The name `saveToCSV` writes is a report candidate whose timestamp reads
      back as the time it was written. */
  lemma ReportNameRoundTrip(now: nat)
    ensures IsCandidate(ReportName(now))
    ensures Timestamp(ReportName(now)) == Some(now)
  {
    var digits := NatToString(now);
    var name := ReportName(now);
    assert name == ReportPrefix + (digits + ReportSuffix);
    assert name[..|ReportPrefix|] == ReportPrefix;
    assert name[|name| - |ReportSuffix|..] == ReportSuffix;
    PrefixFields(digits + ReportSuffix);
    TimestampFieldOfName(digits);
    assert Split(name, '-')[2] == digits + ReportSuffix;
    LeadingDigitsOfDigitString(digits, []);
    assert digits + [] == digits;
    ValueOfNatToString(now);
  }

  /** Once a report written at `now` is in the directory, the route serves a
      report at least that recent. */
  lemma ServesAtLeastLatestWrite(files: seq<string>, now: nat)
    requires WellFormed(files)
    requires ReportName(now) in files
    ensures Get(Some(files)).Attachment?
    ensures Timestamp(Get(Some(files)).file).value >= now
  {
    ReportNameRoundTrip(now);
    assert ReportName(now) in Candidates(files);
  }
}
