/** The cache artifacts of the pydbt workflow: `extract_timestamp` reads the run time out
    of an artifact's file name, `get_latest_run_tasks` picks the newest `.pkl` artifact of
    the cache directory, and `run` writes its artifact under a name built from the
    workflow's `artifact_name`, the run time formatted as `%Y%m%d_%H:%M:%S`. */
module PydbtArtifacts {
  import opened Common
  import opened Schedule

  // ------------------------------------------------------------------ digits

  predicate IsDigit(c: char) {
    '0' <= c <= '9'
  }

  /** The value of a digit. */
  function Digit(c: char): (n: nat)
    requires IsDigit(c)
    ensures n < 10
  {
    c as int - '0' as int
  }

  /** The two-digit number at positions i and i + 1, as `int` reads it. */
  function Two(s: string, i: nat): (n: nat)
    requires i + 2 <= |s| && IsDigit(s[i]) && IsDigit(s[i + 1])
    ensures n < 100
  {
    Digit(s[i]) * 10 + Digit(s[i + 1])
  }

  function DigitChar(n: nat): (c: char)
    requires n < 10
    ensures IsDigit(c)
  {
    ('0' as int + n) as char
  }

  /** `%02d`-style two-digit field. */
  function Pad2(n: nat): (s: string)
    requires n < 100
  {
    [DigitChar(n / 10), DigitChar(n % 10)]
  }

  /** A four-digit `%Y` field. */
  function Pad4(n: nat): (s: string)
    requires n < 10000
  {
    Pad2(n / 100) + Pad2(n % 100)
  }

  // ------------------------------------------------------------------ timestamps

  /** A `datetime` with whole seconds. */
  datatype Timestamp = Timestamp(year: int, month: int, day: int, hour: int, minute: int, second: int)

  /** The values `datetime(year, month, day, hour, minute, second)` accepts. */
  predicate ValidTimestamp(t: Timestamp) {
    ValidDate(Date(t.year, t.month, t.day)) && 0 <= t.hour < 24 && 0 <= t.minute < 60 && 0 <= t.second < 60
  }

  /** `a < b` on datetimes: the fields compared in order. */
  predicate Before(a: Timestamp, b: Timestamp) {
    if a.year != b.year then a.year < b.year
    else if a.month != b.month then a.month < b.month
    else if a.day != b.day then a.day < b.day
    else if a.hour != b.hour then a.hour < b.hour
    else if a.minute != b.minute then a.minute < b.minute
    else a.second < b.second
  }

  /** `Before` is a strict total order, so `max` and `list.index` are well defined. */
  lemma BeforeIsStrictTotalOrder(a: Timestamp, b: Timestamp, c: Timestamp)
    ensures !Before(a, a)
    ensures Before(a, b) ==> !Before(b, a)
    ensures Before(a, b) && Before(b, c) ==> Before(a, c)
    ensures a != b ==> Before(a, b) || Before(b, a)
  {
  }

  /** `strftime("%Y%m%d_%H:%M:%S")` for a year of four digits. */
  function Format(t: Timestamp): (s: string)
    requires ValidTimestamp(t) && t.year < 10000
    ensures |s| == 17
  {
    Pad4(t.year) + Pad2(t.month) + Pad2(t.day) + "_" + Pad2(t.hour) + ":" + Pad2(t.minute) + ":" + Pad2(t.second)
  }

  /** The text `(\d{8}_\d{2}:\d{2}:\d{2})` matches. */
  predicate Shaped(g: string) {
    && |g| == 17 && g[8] == '_' && g[11] == ':' && g[14] == ':'
    && forall i :: 0 <= i < 17 && i != 8 && i != 11 && i != 14 ==> IsDigit(g[i])
  }

  /** The fields `%Y%m%d_%H:%M:%S` reads from a shaped text. */
  function Fields(g: string): Timestamp
    requires Shaped(g)
  {
    Timestamp(Two(g, 0) * 100 + Two(g, 2), Two(g, 4), Two(g, 6), Two(g, 9), Two(g, 12), Two(g, 15))
  }

  /** `datetime.strptime(g, "%Y%m%d_%H:%M:%S")` on a shaped text. Between the `_` and the
      `:` separators every field has exactly two digits, so the format's own pattern
      matches only when the month lies in 1..12, the day in 1..31, the hour in 0..23, the
      minute in 0..59 and the second in 0..61; the datetime built from the fields then
      rejects a year 0, a day past the end of its month and the seconds 60 and 61. Both
      failures raise ValueError. */
  function Strptime(g: string): (r: Result<Timestamp>)
    requires Shaped(g)
  {
    var t := Fields(g);
    if !(1 <= t.month <= 12 && 1 <= t.day <= 31 && t.hour <= 23 && t.minute <= 59 && t.second <= 61) then
      Raised(ValueError)
    else if !(ValidDate(Date(t.year, t.month, t.day)) && t.second <= 59) then
      Raised(ValueError)
    else
      Ok(t)
  }

  /** A match of `_(\d{8}_\d{2}:\d{2}:\d{2})` starting at position p. */
  predicate MatchesAt(s: string, p: nat) {
    p + 18 <= |s| && s[p] == '_' && Shaped(s[p + 1..p + 18])
  }

  /** `re.search`: the leftmost match at or after `from`. */
  function Search(s: string, from: nat): (r: Option<nat>)
    ensures r.Some? ==> from <= r.value && MatchesAt(s, r.value)
    decreases |s| - from
  {
    if from + 18 > |s| then None
    else if MatchesAt(s, from) then Some(from)
    else Search(s, from + 1)
  }

  /** `extract_timestamp`: `.group(1)` on the None of a failed search raises
      AttributeError; otherwise the matched text goes to `strptime`. */
  function ExtractTimestamp(name: string): (r: Result<Timestamp>)
  {
    match Search(name, 0)
    case None => Raised(AttributeError)
    case Some(p) => Strptime(name[p + 1..p + 18])
  }

  // ------------------------------------------------------------------ latest artifact

  predicate IsPkl(f: string) {
    |f| >= 4 && f[|f| - 4..] == ".pkl"
  }

  /** `[f for f in os.listdir(folder_path) if f.endswith(".pkl")]`, the listing given. */
  function PklFiles(files: seq<string>): (r: seq<string>)
  {
    if files == [] then []
    else PklFiles(files[..|files| - 1]) + (if IsPkl(files[|files| - 1]) then [files[|files| - 1]] else [])
  }

  /** `[self.extract_timestamp(f) for f in file_list]`: the first failure escapes. */
  function Timestamps(fs: seq<string>): (r: Result<seq<Timestamp>>)
    ensures r.Ok? ==> |r.value| == |fs|
  {
    if fs == [] then Ok([])
    else
      match Timestamps(fs[..|fs| - 1])
      case Raised(e) => Raised(e)
      case Ok(ts) =>
        match ExtractTimestamp(fs[|fs| - 1])
        case Raised(e) => Raised(e)
        case Ok(t) => Ok(ts + [t])
  }

  /** `max(timestamps)`: an element replaces the current maximum only when it is later. */
  function Latest(ts: seq<Timestamp>): (m: Timestamp)
    requires |ts| > 0
    ensures m in ts
  {
    if |ts| == 1 then ts[0]
    else
      var m := Latest(ts[..|ts| - 1]);
      if Before(m, ts[|ts| - 1]) then ts[|ts| - 1] else m
  }

  /** `get_latest_run_tasks` over the directory listing: None when no `.pkl` file is
      listed, else the first listed `.pkl` file whose timestamp is the latest. */
  function GetLatestRunTasks(files: seq<string>): (r: Result<Option<string>>)
  {
    var pkl := PklFiles(files);
    if pkl == [] then Ok(None)
    else
      match Timestamps(pkl)
      case Raised(e) => Raised(e)
      case Ok(ts) =>
        var k := FirstIndex(ts, Latest(ts)).value;
        Ok(Some(pkl[k]))
  }

  /** The file name of the artifact `run` dumps. */
  function DumpFile(artifactName: string): string {
    "task_" + artifactName + ".pkl"
  }

  /** `f"{self._base_dir}/task_{self.artifact_name}.pkl"`, where `run` dumps the tasks. */
  function DumpPath(baseDir: string, artifactName: string): string {
    baseDir + "/" + DumpFile(artifactName)
  }

  // ------------------------------------------------------------------ digit lemmas

  lemma DigitCharDigit(n: nat)
    requires n < 10
    ensures Digit(DigitChar(n)) == n
  {
  }

  lemma DigitDigitChar(c: char)
    requires IsDigit(c)
    ensures DigitChar(Digit(c)) == c
  {
  }

  // ------------------------------------------------------------------ timestamp lemmas

  /** What `strptime` accepts: exactly the texts whose fields make a valid datetime; it
      returns those fields, and raises ValueError for any other. */
  lemma StrptimeAccepts(g: string)
    requires Shaped(g)
    ensures Strptime(g).Ok? <==> ValidTimestamp(Fields(g))
    ensures Strptime(g).Ok? ==> Strptime(g).value == Fields(g)
    ensures Strptime(g).Raised? ==> Strptime(g).exc == ValueError
  {
  }

  /** The two digits written for n read back as n. */
  lemma TwoOfPad(s: string, i: nat, n: nat)
    requires n < 100 && i + 2 <= |s| && s[i..i + 2] == Pad2(n)
    ensures IsDigit(s[i]) && IsDigit(s[i + 1]) && Two(s, i) == n
  {
    assert s[i] == DigitChar(n / 10) && s[i + 1] == DigitChar(n % 10);
    DigitCharDigit(n / 10);
    DigitCharDigit(n % 10);
  }

  /** Two digits are written back as themselves. */
  lemma PadOfTwo(s: string, i: nat)
    requires i + 2 <= |s| && IsDigit(s[i]) && IsDigit(s[i + 1])
    ensures Pad2(Two(s, i)) == s[i..i + 2]
  {
    DigitDigitChar(s[i]);
    DigitDigitChar(s[i + 1]);
  }

  lemma SplitYear(a: nat, b: nat)
    requires a < 100 && b < 100
    ensures (a * 100 + b) / 100 == a && (a * 100 + b) % 100 == b
  {
  }

  /** Formatting a datetime and parsing the text back gives the datetime. */
  lemma {:induction false} StrptimeFormat(t: Timestamp)
    requires ValidTimestamp(t) && t.year < 10000
    ensures Shaped(Format(t)) && Strptime(Format(t)) == Ok(t)
  {
    var s := Format(t);
    TwoOfPad(s, 0, t.year / 100);
    TwoOfPad(s, 2, t.year % 100);
    TwoOfPad(s, 4, t.month);
    TwoOfPad(s, 6, t.day);
    TwoOfPad(s, 9, t.hour);
    TwoOfPad(s, 12, t.minute);
    TwoOfPad(s, 15, t.second);
    assert Shaped(s);
    assert Fields(s) == t;
  }

  /** A text `strptime` accepts is the formatting of the datetime it returns. */
  lemma {:induction false} FormatStrptime(g: string)
    requires Shaped(g) && Strptime(g).Ok?
    ensures ValidTimestamp(Strptime(g).value) && Strptime(g).value.year < 10000
    ensures Format(Strptime(g).value) == g
  {
    var t := Strptime(g).value;
    SplitYear(Two(g, 0), Two(g, 2));
    PadOfTwo(g, 0);
    PadOfTwo(g, 2);
    PadOfTwo(g, 4);
    PadOfTwo(g, 6);
    PadOfTwo(g, 9);
    PadOfTwo(g, 12);
    PadOfTwo(g, 15);
    assert Pad4(t.year) == g[..4];
    assert g == g[..4] + g[4..6] + g[6..8] + "_" + g[9..11] + ":" + g[12..14] + ":" + g[15..17];
  }

  /** `re.search` finds the leftmost match: none before it, and none at all when it
      finds nothing. */
  lemma {:induction false} SearchIsLeftmost(s: string, from: nat)
    ensures Search(s, from).Some? ==> forall q :: from <= q < Search(s, from).value ==> !MatchesAt(s, q)
    ensures Search(s, from).None? ==> forall q :: from <= q ==> !MatchesAt(s, q)
    decreases |s| - from
  {
    if from + 18 <= |s| && !MatchesAt(s, from) {
      SearchIsLeftmost(s, from + 1);
    }
  }

  /** `extract_timestamp` raises AttributeError exactly when no match exists, and
      otherwise parses the text of the leftmost match. */
  lemma ExtractTimestampSpec(name: string)
    ensures ExtractTimestamp(name) == Raised(AttributeError) <==> forall q :: !MatchesAt(name, q)
    ensures ExtractTimestamp(name) != Raised(AttributeError) ==> exists p :: (MatchesAt(name, p)
      && (forall q :: q < p ==> !MatchesAt(name, q)) && ExtractTimestamp(name) == Strptime(name[p + 1..p + 18]))
  {
    SearchIsLeftmost(name, 0);
    if Search(name, 0).Some? {
      var p := Search(name, 0).value;
      StrptimeAccepts(name[p + 1..p + 18]);
      assert MatchesAt(name, p);
    }
  }

  /** The artifact `run` dumps under the name of a run time carries that run time: the
      file is a `.pkl` file and `extract_timestamp` reads the time back. */
  lemma {:induction false} DumpFileTimestamp(t: Timestamp)
    requires ValidTimestamp(t) && t.year < 10000
    ensures IsPkl(DumpFile(Format(t)))
    ensures ExtractTimestamp(DumpFile(Format(t))) == Ok(t)
  {
    var name := DumpFile(Format(t));
    StrptimeFormat(t);
    assert name[4] == '_' && name[5..22] == Format(t);
    assert MatchesAt(name, 4);
    assert name[0] == 't' && name[1] == 'a' && name[2] == 's' && name[3] == 'k';
    assert Search(name, 4) == Some(4);
    assert Search(name, 3) == Some(4);
    assert Search(name, 2) == Some(4);
    assert Search(name, 1) == Some(4);
    assert Search(name, 0) == Some(4);
    assert name[|name| - 4..] == ".pkl";
  }

  // ------------------------------------------------------------------ listing lemmas

  /** The `.pkl` filter keeps exactly the `.pkl` names, in listing order. */
  lemma {:induction false} PklFilesSpec(files: seq<string>)
    ensures forall f :: f in PklFiles(files) <==> f in files && IsPkl(f)
    ensures |PklFiles(files)| <= |files|
  {
    if files != [] {
      PklFilesSpec(files[..|files| - 1]);
      assert files == files[..|files| - 1] + [files[|files| - 1]];
    }
  }

  /** The timestamps are those of the files, one each, exactly when every name parses. */
  lemma {:induction false} TimestampsOk(fs: seq<string>)
    ensures Timestamps(fs).Ok? <==> forall i :: 0 <= i < |fs| ==> ExtractTimestamp(fs[i]).Ok?
    ensures Timestamps(fs).Ok? ==> forall i :: 0 <= i < |fs| ==> Timestamps(fs).value[i] == ExtractTimestamp(fs[i]).value
  {
    if fs != [] {
      var init, last := fs[..|fs| - 1], fs[|fs| - 1];
      TimestampsOk(init);
      assert forall i :: 0 <= i < |init| ==> fs[i] == init[i];
      if Timestamps(init).Ok? && ExtractTimestamp(last).Ok? {
        assert Timestamps(fs) == Ok(Timestamps(init).value + [ExtractTimestamp(last).value]);
      } else {
        assert Timestamps(fs).Raised?;
      }
    }
  }

  /** When some name does not parse, the exception of the first such name escapes. */
  lemma {:induction false} TimestampsRaised(fs: seq<string>)
    requires Timestamps(fs).Raised?
    ensures exists k :: (0 <= k < |fs| && ExtractTimestamp(fs[k]) == Raised(Timestamps(fs).exc)
      && forall i :: 0 <= i < k ==> ExtractTimestamp(fs[i]).Ok?)
  {
    var init := fs[..|fs| - 1];
    if Timestamps(init).Raised? {
      TimestampsRaised(init);
      var k :| 0 <= k < |init| && ExtractTimestamp(init[k]) == Raised(Timestamps(init).exc)
        && forall i :: 0 <= i < k ==> ExtractTimestamp(init[i]).Ok?;
      assert fs[k] == init[k];
      assert forall i :: 0 <= i < k ==> fs[i] == init[i];
    } else {
      TimestampsOk(init);
      assert forall i :: 0 <= i < |init| ==> fs[i] == init[i];
    }
  }

  /** `max` returns a timestamp no other one is later than. */
  lemma {:induction false} LatestIsMaximum(ts: seq<Timestamp>)
    requires |ts| > 0
    ensures forall i :: 0 <= i < |ts| ==> !Before(Latest(ts), ts[i])
  {
    if |ts| > 1 {
      var init := ts[..|ts| - 1];
      LatestIsMaximum(init);
      var m := Latest(init);
      var last := ts[|ts| - 1];
      forall i | 0 <= i < |ts|
        ensures !Before(Latest(ts), ts[i])
      {
        BeforeIsStrictTotalOrder(m, last, ts[i]);
        if i < |ts| - 1 {
          assert ts[i] == init[i];
          BeforeIsStrictTotalOrder(last, m, ts[i]);
        }
      }
    }
  }

  /** No artifact is found exactly when the listing holds no `.pkl` file. */
  lemma GetLatestNone(files: seq<string>)
    ensures GetLatestRunTasks(files) == Ok(None) <==> forall f :: f in files ==> !IsPkl(f)
  {
    PklFilesSpec(files);
    var pkl := PklFiles(files);
    if pkl != [] {
      assert pkl[0] in pkl;
    }
  }

  /** The search raises exactly when some `.pkl` name carries no valid timestamp, and
      then with the exception of such a name. */
  lemma GetLatestRaised(files: seq<string>)
    ensures GetLatestRunTasks(files).Raised? <==> exists f :: f in files && IsPkl(f) && ExtractTimestamp(f).Raised?
    ensures GetLatestRunTasks(files).Raised? ==>
      exists f :: f in files && IsPkl(f) && ExtractTimestamp(f) == Raised(GetLatestRunTasks(files).exc)
  {
    var pkl := PklFiles(files);
    PklFilesSpec(files);
    TimestampsOk(pkl);
    if Timestamps(pkl).Raised? {
      TimestampsRaised(pkl);
      var k :| 0 <= k < |pkl| && ExtractTimestamp(pkl[k]) == Raised(Timestamps(pkl).exc);
      assert pkl[k] in pkl;
    } else {
      forall f | f in files && IsPkl(f)
        ensures ExtractTimestamp(f).Ok?
      {
        assert f in pkl;
      }
    }
  }

  /** A found artifact is a listed `.pkl` file whose timestamp no other `.pkl` file's
      timestamp is later than. */
  lemma GetLatestIsLatest(files: seq<string>)
    requires GetLatestRunTasks(files).Ok? && GetLatestRunTasks(files).value.Some?
    ensures var f := GetLatestRunTasks(files).value.value;
      f in files && IsPkl(f) && ExtractTimestamp(f).Ok?
      && forall g :: g in files && IsPkl(g) ==>
        ExtractTimestamp(g).Ok? && !Before(ExtractTimestamp(f).value, ExtractTimestamp(g).value)
  {
    var pkl := PklFiles(files);
    PklFilesSpec(files);
    TimestampsOk(pkl);
    var ts := Timestamps(pkl).value;
    LatestIsMaximum(ts);
    var k := FirstIndex(ts, Latest(ts)).value;
    assert pkl[k] in pkl;
    forall g | g in files && IsPkl(g)
      ensures ExtractTimestamp(g).Ok? && !Before(ExtractTimestamp(pkl[k]).value, ExtractTimestamp(g).value)
    {
      assert g in pkl;
      var i :| 0 <= i < |pkl| && pkl[i] == g;
      assert ts[i] == ExtractTimestamp(g).value;
    }
  }

  /** Among `.pkl` files with the latest timestamp the first listed one is found: every
      `.pkl` file listed before it is strictly older. */
  lemma GetLatestIsFirst(files: seq<string>)
    requires GetLatestRunTasks(files).Ok? && GetLatestRunTasks(files).value.Some?
    ensures var f := GetLatestRunTasks(files).value.value;
      ExtractTimestamp(f).Ok? && exists k :: (0 <= k < |PklFiles(files)| && PklFiles(files)[k] == f
        && forall i :: 0 <= i < k ==> (ExtractTimestamp(PklFiles(files)[i]).Ok?
          && Before(ExtractTimestamp(PklFiles(files)[i]).value, ExtractTimestamp(f).value)))
  {
    var pkl := PklFiles(files);
    TimestampsOk(pkl);
    var ts := Timestamps(pkl).value;
    LatestIsMaximum(ts);
    var k := FirstIndex(ts, Latest(ts)).value;
    forall i | 0 <= i < k
      ensures Before(ts[i], ts[k])
    {
      BeforeIsStrictTotalOrder(ts[i], ts[k], ts[k]);
    }
  }
}
