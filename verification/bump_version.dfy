/**
 * The release helper scripts/bump-version.ts: bump the patch component of a
 * "major.minor.patch" version and rewrite the README's version badge. Reading
 * and writing package.json and README.md are outside the model; their
 * contents are parameters and results.
 */
module BumpVersion {
  import opened Wrappers
  import opened Text

  const InvalidVersion := "Invalid semver version: "

  /** `s.split(sep)` */
  function Split(s: string, sep: char): (parts: seq<string>)
    ensures |parts| >= 1
    ensures forall k :: 0 <= k < |parts| ==> sep !in parts[k]
    ensures Join(parts, sep) == s
  {
    if s == [] then [[]]
    else
      var rest := Split(s[1..], sep);
      assert s == [s[0]] + s[1..];
      if s[0] == sep then
        assert ([[]] + rest)[1..] == rest;
        [[]] + rest
      else
        var parts := [[s[0]] + rest[0]] + rest[1..];
        assert parts[1..] == rest[1..];
        assert Join(parts, sep) == [s[0]] + Join(rest, sep) by {
          if |rest| > 1 { assert Join(rest, sep) == rest[0] + [sep] + Join(rest[1..], sep); }
        }
        parts
  }

  /** `parts.join(sep)`, the inverse of `Split`. */
  function Join(parts: seq<string>, sep: char): string
    requires |parts| >= 1
  {
    if |parts| == 1 then parts[0] else parts[0] + [sep] + Join(parts[1..], sep)
  }

  lemma {:induction false} SplitAfterSeparator(s: string, sep: char)
    ensures Split([sep] + s, sep) == [[]] + Split(s, sep)
  {
    assert ([sep] + s)[1..] == s;
  }

  /** Splitting text that was joined from separator-free parts gives the parts back. */
  lemma {:induction false} SplitJoin(parts: seq<string>, sep: char)
    requires |parts| >= 1
    requires forall k :: 0 <= k < |parts| ==> sep !in parts[k]
    ensures Split(Join(parts, sep), sep) == parts
    decreases |parts|, |parts[0]|
  {
    if parts[0] == [] {
      if |parts| > 1 {
        assert Join(parts, sep) == [sep] + Join(parts[1..], sep);
        SplitAfterSeparator(Join(parts[1..], sep), sep);
        SplitJoin(parts[1..], sep);
      }
    } else {
      var shorter := [parts[0][1..]] + parts[1..];
      assert Join(parts, sep) == [parts[0][0]] + Join(shorter, sep) by {
        if |parts| > 1 {
          assert Join(shorter, sep) == parts[0][1..] + [sep] + Join(parts[1..], sep);
        }
      }
      assert parts[0][0] != sep by { assert parts[0][0] in parts[0]; }
      assert sep !in parts[0][1..] by {
        forall i | 0 <= i < |parts[0][1..]| ensures parts[0][1..][i] != sep {
          assert parts[0][1..][i] == parts[0][i + 1];
        }
      }
      SplitJoin(shorter, sep);
      var joined := [parts[0][0]] + Join(shorter, sep);
      assert joined[0] == parts[0][0] && joined[1..] == Join(shorter, sep);
      assert Split(joined, sep) == [[parts[0][0]] + parts[0][1..]] + parts[1..];
      assert [parts[0][0]] + parts[0][1..] == parts[0];
    }
  }

  /** `Number(part)` for the forms modelled here: a run of decimal digits,
      the empty run being 0 as in JavaScript. Anything else is rejected. */
  function PartValue(part: string): Option<nat> {
    if IsDigits(part) then Some(DigitsValue(part)) else None
  }

  datatype Version = Version(major: nat, minor: nat, patch: nat)

  /** The checks of `bumpPatchVersion`: exactly three "."-separated parts,
      each a non-negative integer. */
  function ParseVersion(input: string): (r: Option<Version>)
    ensures r.Some? <==>
      var parts := Split(input, '.');
      |parts| == 3 && IsDigits(parts[0]) && IsDigits(parts[1]) && IsDigits(parts[2])
  {
    var parts := Split(input, '.');
    if |parts| != 3 then None
    else
      match (PartValue(parts[0]), PartValue(parts[1]), PartValue(parts[2]))
      case (Some(major), Some(minor), Some(patch)) => Some(Version(major, minor, patch))
      case _ => None
  }

  /** `${major}.${minor}.${patch}`: splitting the text at "." gives back the
      three decimal renderings. */
  function FormatVersion(v: Version): (r: string)
    ensures Split(r, '.') == [NatToString(v.major), NatToString(v.minor), NatToString(v.patch)]
  {
    var a, b, c := NatToString(v.major), NatToString(v.minor), NatToString(v.patch);
    SplitThreeParts(a, b, c);
    a + "." + b + "." + c
  }

  /** Three digit runs joined with "." split back into those runs. */
  lemma SplitThreeParts(a: string, b: string, c: string)
    requires IsDigits(a) && IsDigits(b) && IsDigits(c)
    ensures Split(a + "." + b + "." + c, '.') == [a, b, c]
  {
    assert '.' !in a && '.' !in b && '.' !in c by {
      assert forall i :: 0 <= i < |a| ==> IsDigit(a[i]);
      assert forall i :: 0 <= i < |b| ==> IsDigit(b[i]);
      assert forall i :: 0 <= i < |c| ==> IsDigit(c[i]);
    }
    assert [a, b, c][1..] == [b, c] && [b, c][1..] == [c];
    assert Join([c], '.') == c;
    assert Join([b, c], '.') == b + "." + c;
    assert Join([a, b, c], '.') == a + "." + (b + "." + c);
    assert Join([a, b, c], '.') == a + "." + b + "." + c;
    SplitJoin([a, b, c], '.');
  }

  /** A formatted version parses back to itself. */
  lemma ParseFormatRoundTrip(v: Version)
    ensures ParseVersion(FormatVersion(v)) == Some(v)
  {
    DigitsValueOfNatToString(v.major);
    DigitsValueOfNatToString(v.minor);
    DigitsValueOfNatToString(v.patch);
  }

  /** `bumpPatchVersion`: the same major and minor and the next patch, or the error. */
  function BumpPatchVersion(input: string): (r: Result<string>)
    ensures r.Ok? <==> ParseVersion(input).Some?
    ensures r.Err? ==> r.message == InvalidVersion + input
    ensures r.Ok? ==>
      var v := ParseVersion(input).value;
      ParseVersion(r.value) == Some(Version(v.major, v.minor, v.patch + 1))
    ensures r.Ok? ==>
      var v := ParseVersion(input).value;
      r.value == FormatVersion(Version(v.major, v.minor, v.patch + 1))
  {
    match ParseVersion(input)
    case None => Err(InvalidVersion + input)
    case Some(v) =>
      var next := Version(v.major, v.minor, v.patch + 1);
      ParseFormatRoundTrip(next);
      Ok(FormatVersion(next))
  }

  /** A bumped version can be bumped again. */
  lemma BumpIterates(input: string)
    requires BumpPatchVersion(input).Ok?
    ensures BumpPatchVersion(BumpPatchVersion(input).value).Ok?
  {
  }

  /** A missing version counts as "0.0.0", so the first bump gives "0.0.1". */
  function NextVersion(current: Option<string>): (r: Result<string>)
    ensures current.None? ==> r == Ok("0.0.1")
    ensures current.Some? ==> r == BumpPatchVersion(current.value)
  {
    if current.None? then FirstBump(); BumpPatchVersion("0.0.0")
    else BumpPatchVersion(current.value)
  }

  lemma FirstBump()
    ensures BumpPatchVersion("0.0.0") == Ok("0.0.1")
  {
    ZeroParses();
    OneFormats();
  }

  lemma ZeroParses()
    ensures ParseVersion("0.0.0") == Some(Version(0, 0, 0))
  {
    assert "0.0.0" == FormatVersion(Version(0, 0, 0));
    ParseFormatRoundTrip(Version(0, 0, 0));
  }

  lemma OneFormats()
    ensures FormatVersion(Version(0, 0, 1)) == "0.0.1"
  {
  }

  // The README badge: ![Version](https://img.shields.io/badge/version-[^-]+-[^)]+)

  const BadgePrefix := "![Version](https://img.shields.io/badge/version-"

  /** The badge `run` writes for a version. */
  const BadgeColor := "22c55e"

  function Badge(version: string): string {
    BadgePrefix + version + "-" + BadgeColor + ")"
  }

  /** The first index at or after `from` holding `c`. */
  function FindChar(s: string, c: char, from: nat): (r: Option<nat>)
    requires from <= |s|
    ensures r.Some? ==> from <= r.value < |s| && s[r.value] == c
    ensures r.Some? ==> forall i :: from <= i < r.value ==> s[i] != c
    ensures r.None? ==> forall i :: from <= i < |s| ==> s[i] != c
    decreases |s| - from
  {
    if from == |s| then None else if s[from] == c then Some(from) else FindChar(s, c, from + 1)
  }

  /** `s[start..end]` has the pattern's shape, with its "-" at `dash`: the
      prefix, one or more characters other than "-", the "-", one or more
      characters other than ")", and a ")". */
  predicate BadgeShape(s: string, start: nat, dash: nat, end: nat, prefix: string) {
    start + |prefix| < dash && dash + 2 < end <= |s|
    && StartsWith(s[start..], prefix)
    && (forall i :: start + |prefix| <= i < dash ==> s[i] != '-')
    && s[dash] == '-'
    && (forall i :: dash + 1 <= i < end - 1 ==> s[i] != ')')
    && s[end - 1] == ')'
  }

  /** Where a match of the badge pattern starting at `start` ends, if there
      is one (`BadgeEndAtIsTheMatch` relates it to `BadgeShape`). `prefix` is
      the literal text the pattern opens with, `BadgePrefix`. */
  function BadgeEndAt(s: string, start: nat, prefix: string): (r: Option<nat>)
    requires start <= |s|
    ensures r.Some? ==> start + |prefix| + 4 <= r.value <= |s|
    ensures r.Some? ==> StartsWith(s[start..], prefix)
    ensures r.Some? ==> s[r.value - 1] == ')'
  {
    if !StartsWith(s[start..], prefix) then None
    else
      var body := start + |prefix|;
      match FindChar(s, '-', body)
      case None => None
      case Some(dash) =>
        if dash == body then None
        else
          match FindChar(s, ')', dash + 1)
          case None => None
          case Some(close) => if close == dash + 1 then None else Some(close + 1)
  }

  /** A match has the pattern's shape, and every text of that shape at
      `start` ends where the match does: the match exists exactly when the
      shape does, and it is unique. */
  lemma BadgeEndAtIsTheMatch(s: string, start: nat, prefix: string)
    requires start <= |s|
    ensures BadgeEndAt(s, start, prefix).Some? ==>
      exists dash :: BadgeShape(s, start, dash, BadgeEndAt(s, start, prefix).value, prefix)
    ensures forall dash: nat, end: nat :: BadgeShape(s, start, dash, end, prefix) ==>
      BadgeEndAt(s, start, prefix) == Some(end)
  {
    ShapeFindsFirst(s, start, prefix);
    var r := BadgeEndAt(s, start, prefix);
    if r.Some? {
      var dash := FindChar(s, '-', start + |prefix|).value;
      assert BadgeShape(s, start, dash, r.value, prefix);
    }
  }

  /** In a text of the pattern's shape the "-" is the first one after the
      prefix and the closing ")" the first one after the "-". */
  lemma ShapeFindsFirst(s: string, start: nat, prefix: string)
    ensures forall dash: nat, end: nat :: BadgeShape(s, start, dash, end, prefix) ==>
      FindChar(s, '-', start + |prefix|) == Some(dash) && FindChar(s, ')', dash + 1) == Some(end - 1)
  {
    forall dash: nat, end: nat | BadgeShape(s, start, dash, end, prefix)
      ensures FindChar(s, '-', start + |prefix|) == Some(dash) && FindChar(s, ')', dash + 1) == Some(end - 1)
    {
      assert s[dash] == '-' && s[end - 1] == ')';
    }
  }

  /** The leftmost match at or after `from`, as (start, end). */
  function FirstBadge(s: string, from: nat, prefix: string): (r: Option<(nat, nat)>)
    requires from <= |s|
    ensures r.Some? ==> from <= r.value.0 <= |s| && BadgeEndAt(s, r.value.0, prefix) == Some(r.value.1)
    decreases |s| - from
  {
    var end := BadgeEndAt(s, from, prefix);
    if end.Some? then Some((from, end.value))
    else if from == |s| then None
    else FirstBadge(s, from + 1, prefix)
  }

  /** The match found is the leftmost one; none is found only when there is none. */
  lemma {:induction false} FirstBadgeIsLeftmost(s: string, from: nat, prefix: string)
    requires from <= |s|
    ensures var r := FirstBadge(s, from, prefix);
      r.Some? ==> forall i :: from <= i < r.value.0 ==> BadgeEndAt(s, i, prefix).None?
    ensures FirstBadge(s, from, prefix).None? ==> forall i :: from <= i <= |s| ==> BadgeEndAt(s, i, prefix).None?
    decreases |s| - from
  {
    if BadgeEndAt(s, from, prefix).None? && from < |s| {
      FirstBadgeIsLeftmost(s, from + 1, prefix);
      var next := FirstBadge(s, from + 1, prefix);
      assert FirstBadge(s, from, prefix) == next;
      if next.Some? {
        forall i | from <= i < next.value.0 ensures BadgeEndAt(s, i, prefix).None? {
          if i > from { assert from + 1 <= i; }
        }
      } else {
        forall i | from <= i <= |s| ensures BadgeEndAt(s, i, prefix).None? {
          if i > from { assert from + 1 <= i; }
        }
      }
    } else if BadgeEndAt(s, from, prefix).Some? {
      assert FirstBadge(s, from, prefix).value.0 == from;
    } else {
      assert FirstBadge(s, from, prefix).None?;
    }
  }

  /** `readme.replace(versionBadgePattern, badge)`: only the first match is replaced. */
  function ReplaceBadge(readme: string, badge: string): (r: string)
    ensures FirstBadge(readme, 0, BadgePrefix).None? ==> r == readme
    ensures FirstBadge(readme, 0, BadgePrefix).Some? ==>
      var (start, end) := FirstBadge(readme, 0, BadgePrefix).value;
      r == readme[..start] + badge + readme[end..]
  {
    match FirstBadge(readme, 0, BadgePrefix)
    case None => readme
    case Some((start, end)) => readme[..start] + badge + readme[end..]
  }

  /** Text of the pattern's shape, standing anywhere, is one whole match. */
  lemma {:induction false} PatternMatchesAt(pre: string, prefix: string, version: string, color: string, post: string)
    requires version != [] && '-' !in version && ')' !in version
    requires color != [] && ')' !in color
    ensures var s := pre + (prefix + version + "-" + color + ")") + post;
      BadgeEndAt(s, |pre|, prefix) == Some(|pre| + |prefix| + |version| + |color| + 2)
  {
    var s := pre + (prefix + version + "-" + color + ")") + post;
    var body := |pre| + |prefix|;
    var dash := body + |version|;
    var close := dash + 1 + |color|;
    assert s[|pre|..][..|prefix|] == prefix;
    assert forall i :: body <= i < dash ==> s[i] != '-' by {
      forall i | body <= i < dash ensures s[i] != '-' {
        assert s[i] == version[i - body];
      }
    }
    assert s[dash] == '-';
    assert FindChar(s, '-', body) == Some(dash);
    assert forall i :: dash + 1 <= i < close ==> s[i] != ')' by {
      forall i | dash + 1 <= i < close ensures s[i] != ')' {
        assert s[i] == color[i - dash - 1];
      }
    }
    assert s[close] == ')';
    assert FindChar(s, ')', dash + 1) == Some(close);
  }

  /** A badge written for a version without "-" or ")" is one whole match
      wherever it stands, so the next run finds it again. */
  lemma BadgeMatchesPattern(pre: string, version: string, post: string)
    requires version != [] && '-' !in version && ')' !in version
    ensures BadgeEndAt(pre + Badge(version) + post, |pre|, BadgePrefix) == Some(|pre| + |Badge(version)|)
  {
    assert ')' !in BadgeColor;
    PatternMatchesAt(pre, BadgePrefix, version, BadgeColor, post);
  }

  /** After the replacement the new badge stands where the first match was,
      and is itself a match there. */
  lemma ReplacedBadgeIsFound(readme: string, version: string)
    requires version != [] && '-' !in version && ')' !in version
    requires FirstBadge(readme, 0, BadgePrefix).Some?
    ensures var start := FirstBadge(readme, 0, BadgePrefix).value.0;
      BadgeEndAt(ReplaceBadge(readme, Badge(version)), start, BadgePrefix) == Some(start + |Badge(version)|)
  {
    var m := FirstBadge(readme, 0, BadgePrefix).value;
    var pre, badge, post := readme[..m.0], Badge(version), readme[m.1..];
    assert ReplaceBadge(readme, badge) == pre + badge + post;
    assert |pre| == m.0;
    BadgeMatchesPattern(pre, version, post);
  }

  /** A formatted version is a valid badge version. */
  lemma FormattedVersionFitsBadge(v: Version)
    ensures FormatVersion(v) != [] && '-' !in FormatVersion(v) && ')' !in FormatVersion(v)
  {
    var a, b, c := NatToString(v.major), NatToString(v.minor), NatToString(v.patch);
    assert forall i :: 0 <= i < |a| ==> IsDigit(a[i]);
    assert forall i :: 0 <= i < |b| ==> IsDigit(b[i]);
    assert forall i :: 0 <= i < |c| ==> IsDigit(c[i]);
    assert FormatVersion(v) == a + "." + b + "." + c;
  }

  /** `run`: the next version, and the README text to write if the badge changed it. */
  function Run(currentVersion: Option<string>, readme: string): (r: Result<(string, Option<string>)>)
    ensures r.Ok? <==> NextVersion(currentVersion).Ok?
    ensures r.Ok? ==> r.value.0 == NextVersion(currentVersion).value
    ensures r.Ok? && r.value.1.Some? ==> r.value.1.value == ReplaceBadge(readme, Badge(r.value.0)) != readme
    ensures r.Ok? && FirstBadge(readme, 0, BadgePrefix).None? ==> r.value.1.None?
    ensures r.Ok? && ReplaceBadge(readme, Badge(r.value.0)) != readme ==>
      r.value.1 == Some(ReplaceBadge(readme, Badge(r.value.0)))
  {
    match NextVersion(currentVersion)
    case Err(e) => Err(e)
    case Ok(next) =>
      var updated := ReplaceBadge(readme, Badge(next));
      Ok((next, if updated != readme then Some(updated) else None))
  }
}
