/** versioning.py and the smoke updater's next version: parsing, printing and ordering of version texts. */
module Versions {
  import opened Options
  import opened Text

  // ---- decimal numerals ----

  predicate IsDigit(c: char) {
    '0' <= c <= '9'
  }

  /** \d+ over the ASCII digits. */
  predicate IsNumeral(s: string) {
    s != "" && forall i :: 0 <= i < |s| ==> IsDigit(s[i])
  }

  /** int(s) */
  function ParseNat(s: string): nat
    requires forall i :: 0 <= i < |s| ==> IsDigit(s[i])
  {
    if s == "" then 0
    else
      assert IsDigit(s[|s| - 1]);
      10 * ParseNat(s[..|s| - 1]) + (s[|s| - 1] as int - '0' as int)
  }

  function DigitChar(d: nat): (c: char)
    requires d < 10
    ensures IsDigit(c) && c as int - '0' as int == d
  {
    ('0' as int + d) as char
  }

  /** str(n) */
  function PrintNat(n: nat): (s: string)
    ensures IsNumeral(s)
  {
    if n < 10 then [DigitChar(n)] else PrintNat(n / 10) + [DigitChar(n % 10)]
  }

  /** Reading a printed number gives the number back. */
  lemma {:induction false} ParsePrintNat(n: nat)
    ensures ParseNat(PrintNat(n)) == n
  {
    var s := PrintNat(n);
    if n < 10 {
      assert s[..|s| - 1] == "";
    } else {
      ParsePrintNat(n / 10);
      assert s[..|s| - 1] == PrintNat(n / 10);
    }
  }

  /** Reading one digit more. */
  lemma ParseNatSnoc(init: string, c: char)
    requires IsDigit(c) && forall i :: 0 <= i < |init| ==> IsDigit(init[i])
    ensures ParseNat(init + [c]) == 10 * ParseNat(init) + (c as int - '0' as int)
  {
    assert (init + [c])[..|init|] == init;
  }

  /** Printing one digit more. */
  lemma PrintNatSnoc(front: nat, d: nat)
    requires front > 0 && d < 10
    ensures PrintNat(10 * front + d) == PrintNat(front) + [DigitChar(d)]
  {
    assert (10 * front + d) / 10 == front && (10 * front + d) % 10 == d;
  }

  lemma PrintOneDigit(c: char)
    requires IsDigit(c)
    ensures PrintNat(ParseNat([c])) == [c]
    ensures c != '0' ==> ParseNat([c]) > 0
  {
    ParseNatSnoc("", c);
    assert "" + [c] == [c] && ParseNat("") == 0;
  }

  lemma PrintOneMore(init: string, c: char)
    requires IsNumeral(init) && IsDigit(c) && ParseNat(init) > 0 && PrintNat(ParseNat(init)) == init
    ensures PrintNat(ParseNat(init + [c])) == init + [c] && ParseNat(init + [c]) > 0
  {
    ParseNatSnoc(init, c);
    PrintNatSnoc(ParseNat(init), c as int - '0' as int);
  }

  /** Printing a read numeral gives it back, when it has no superfluous leading zero. */
  lemma {:induction false} PrintParseNat(s: string)
    requires IsNumeral(s) && (|s| > 1 ==> s[0] != '0')
    ensures PrintNat(ParseNat(s)) == s
    ensures s != "0" ==> ParseNat(s) > 0
  {
    var init, c := s[..|s| - 1], s[|s| - 1];
    assert s == init + [c];
    if init == "" {
      PrintOneDigit(c);
      assert s == [c];
    } else {
      assert init[0] == s[0];
      PrintParseNat(init);
      PrintOneMore(init, c);
    }
  }

  // ---- versions ----

  /** label is "" or "rc"; the number of a stable version is 0. */
  datatype ParsedVersion = ParsedVersion(release: seq<nat>, prerelease: string, number: nat) {
    function SortKey(): (seq<nat>, nat, nat) {
      (release, if prerelease == "" then 1 else 0, number)
    }
  }

  datatype VersionError = InvalidVersion

  /** s.replace("-rc", "rc") */
  function JoinRc(s: string): string {
    if |s| < 3 then s
    else if s[..3] == "-rc" then "rc" + JoinRc(s[3..])
    else [s[0]] + JoinRc(s[1..])
  }

  function NormalizeVersionText(value: string): string {
    var stripped := Strip(value);
    if stripped != "" && (stripped[0] == 'v' || stripped[0] == 'V') then stripped[1..] else stripped
  }

  predicate AllNumerals(parts: seq<string>) {
    forall i :: 0 <= i < |parts| ==> IsNumeral(parts[i])
  }

  function Numbers(parts: seq<string>): (r: seq<nat>)
    requires AllNumerals(parts)
    ensures |r| == |parts| && forall i :: 0 <= i < |r| ==> r[i] == ParseNat(parts[i])
  {
    if parts == [] then [] else [ParseNat(parts[0])] + Numbers(parts[1..])
  }

  /** The text before the first c, and the text from it on. */
  function CutAt(s: string, c: char): (r: (string, string))
    ensures s == r.0 + r.1 && c !in r.0 && (r.1 != "" ==> r.1[0] == c)
  {
    if s == "" || s[0] == c then ("", s)
    else
      var rest := CutAt(s[1..], c);
      ([s[0]] + rest.0, rest.1)
  }

  /** The match of (\d+(?:\.\d+)*)(?:rc(\d+))? with the whole text. */
  function MatchVersion(s: string): Result<ParsedVersion, VersionError> {
    var (front, tail) := CutAt(s, 'r');
    var parts := Split(front, '.');
    if !AllNumerals(parts) then Err(InvalidVersion)
    else if tail == "" then Ok(ParsedVersion(Numbers(parts), "", 0))
    else if |tail| > 2 && tail[..2] == "rc" && IsNumeral(tail[2..]) then
      Ok(ParsedVersion(Numbers(parts), "rc", ParseNat(tail[2..])))
    else Err(InvalidVersion)
  }

  function ParseVersion(value: string): Result<ParsedVersion, VersionError> {
    MatchVersion(JoinRc(NormalizeVersionText(value)))
  }

  /** s is the numerals joined by dots, followed by rc and a numeral when rc is given. */
  ghost predicate IsVersionText(s: string, parts: seq<string>, rc: Option<string>) {
    && parts != [] && AllNumerals(parts)
    && (rc.Some? ==> IsNumeral(rc.value))
    && s == Join(parts, '.') + if rc.Some? then "rc" + rc.value else ""
  }

  ghost function VersionOf(parts: seq<string>, rc: Option<string>): ParsedVersion
    requires AllNumerals(parts) && (rc.Some? ==> IsNumeral(rc.value))
  {
    ParsedVersion(Numbers(parts), if rc.Some? then "rc" else "", if rc.Some? then ParseNat(rc.value) else 0)
  }

  lemma {:induction false} JoinedNumerals(parts: seq<string>)
    requires parts != [] && AllNumerals(parts)
    ensures Join(parts, '.') != "" && IsDigit(Join(parts, '.')[0]) && IsDigit(Join(parts, '.')[|Join(parts, '.')| - 1])
    ensures forall c :: c in Join(parts, '.') ==> IsDigit(c) || c == '.'
  {
    assert forall c :: c in parts[0] ==> IsDigit(c);
    assert IsDigit(parts[0][0]) && IsDigit(parts[0][|parts[0]| - 1]);
    if |parts| > 1 {
      JoinedNumerals(parts[1..]);
      var rest, s := Join(parts[1..], '.'), Join(parts, '.');
      assert s == parts[0] + ['.'] + rest;
      assert s[0] == parts[0][0] && s[|s| - 1] == rest[|rest| - 1];
    }
  }

  lemma {:induction false} CutIsUnique(s: string, c: char, front: string, tail: string)
    requires s == front + tail && c !in front && (tail != "" ==> tail[0] == c)
    ensures CutAt(s, c) == (front, tail)
  {
    if front == "" {
      assert s == tail;
    } else {
      assert s[1..] == front[1..] + tail;
      CutIsUnique(s[1..], c, front[1..], tail);
      assert front == [front[0]] + front[1..];
    }
  }

  /** Main result: the matcher accepts exactly the texts of the pattern, and reads their numbers. */
  lemma MatchIsPattern(s: string, v: ParsedVersion)
    ensures MatchVersion(s) == Ok(v) <==> exists parts, rc :: IsVersionText(s, parts, rc) && v == VersionOf(parts, rc)
  {
    if MatchVersion(s) == Ok(v) {
      var (front, tail) := CutAt(s, 'r');
      var parts := Split(front, '.');
      JoinSplit(front, '.');
      var rc := if tail == "" then None else Some(tail[2..]);
      assert tail != "" ==> tail == "rc" + tail[2..];
      assert IsVersionText(s, parts, rc) && v == VersionOf(parts, rc);
    }
    if parts, rc :| IsVersionText(s, parts, rc) && v == VersionOf(parts, rc) {
      PatternMatches(s, parts, rc);
    }
  }

  lemma PatternMatches(s: string, parts: seq<string>, rc: Option<string>)
    requires IsVersionText(s, parts, rc)
    ensures MatchVersion(s) == Ok(VersionOf(parts, rc))
  {
    JoinedNumerals(parts);
    var front, tail := Join(parts, '.'), if rc.Some? then "rc" + rc.value else "";
    CutIsUnique(s, 'r', front, tail);
    SplitJoin(parts, '.');
    if rc.Some? {
      assert tail[..2] == "rc" && tail[2..] == rc.value;
    }
  }

  // ---- the whole parser ----

  lemma {:induction false} NoRcToJoin(s: string)
    requires '-' !in s
    ensures JoinRc(s) == s
  {
    if |s| >= 3 {
      assert s[..3][0] == s[0];
      NoRcToJoin(s[1..]);
    }
  }

  lemma JoinRcStep(t: string)
    requires |t| >= 3
    ensures JoinRc(t) == if t[..3] == "-rc" then "rc" + JoinRc(t[3..]) else [t[0]] + JoinRc(t[1..])
  {
  }

  lemma FirstAndRest(front: string, rest: string)
    requires front != ""
    ensures [front[0]] + (front[1..] + rest) == front + rest
  {
  }

  lemma {:induction false} JoinRcAfter(front: string, rest: string)
    requires '-' !in front
    ensures JoinRc(front + rest) == front + JoinRc(rest)
  {
    if front == "" {
      assert front + rest == rest;
    } else {
      var s := front + rest;
      JoinRcAfter(front[1..], rest);
      assert s[0] == front[0] && s[1..] == front[1..] + rest;
      JoinRcFirst(s);
      FirstAndRest(front, JoinRc(rest));
    }
  }

  lemma JoinRcFirst(s: string)
    requires s != "" && s[0] != '-'
    ensures JoinRc(s) == [s[0]] + JoinRc(s[1..])
  {
    if |s| >= 3 {
      assert s[..3][0] == s[0];
    } else {
      assert s == [s[0]] + s[1..];
    }
  }

  /** Text without a dash or an r. */
  predicate Plain(s: string) {
    '-' !in s && 'r' !in s
  }

  /** Nothing, or rc and plain text. */
  predicate IsTail(tail: string) {
    tail == "" || (|tail| >= 2 && tail[..2] == "rc" && Plain(tail[2..]))
  }

  /** t begins with -rc, and u is the rest read. */
  lemma DashedStep(t: string, u: string, front: string, tail: string)
    requires |t| >= 3 && t[..3] == "-rc" && "rc" + u == front + tail && Plain(front) && IsTail(tail)
    ensures front == "" && tail != "" && tail[2..] == u
    ensures t[3..] == tail[2..] ==> t == "-" + tail
  {
    assert ("rc" + u)[0] == 'r';
    assert front + tail == tail;
    assert tail == tail[..2] + tail[2..] && t == t[..3] + t[3..];
  }

  /** t begins with a character of the front, and u is the rest read. */
  lemma FrontStep(t: string, u: string, front: string, tail: string)
    requires t != "" && [t[0]] + u == front + tail && front != ""
    ensures u == front[1..] + tail
    ensures t[1..] == front[1..] + tail ==> t == front + tail
    ensures t[1..] == front[1..] + "-" + tail ==> t == front + "-" + tail
  {
    assert ([t[0]] + u)[1..] == u && ([t[0]] + u)[0] == t[0];
    assert (front + tail)[1..] == front[1..] + tail;
    assert t == [t[0]] + t[1..] && front == [front[0]] + front[1..];
  }

  /** t begins with the r of the tail, and u is the rest read. */
  lemma TailStep(t: string, u: string, tail: string)
    requires t != "" && [t[0]] + u == tail && IsTail(tail)
    ensures u == "c" + tail[2..] && Plain("c" + tail[2..])
    ensures t[1..] == "c" + tail[2..] ==> t == tail
  {
    assert ([t[0]] + u)[1..] == u && tail[..2][1] == tail[1];
    assert tail[1..] == [tail[1]] + tail[2..];
    assert t == [t[0]] + t[1..];
  }

  /** Only "-rc" in place of "rc" reads the same. */
  lemma {:induction false} JoinRcBack(t: string, front: string, tail: string)
    requires JoinRc(t) == front + tail && Plain(front) && IsTail(tail)
    ensures t == front + tail || (tail != "" && t == front + "-" + tail)
    decreases |t|
  {
    if |t| >= 3 {
      JoinRcStep(t);
      if t[..3] == "-rc" {
        DashedStep(t, JoinRc(t[3..]), front, tail);
        JoinRcBack(t[3..], tail[2..], "");
      } else if front != "" {
        FrontStep(t, JoinRc(t[1..]), front, tail);
        JoinRcBack(t[1..], front[1..], tail);
      } else {
        assert front + tail == tail;
        TailStep(t, JoinRc(t[1..]), tail);
        JoinRcBack(t[1..], "c" + tail[2..], "");
      }
    }
  }

  /** A version as people write it: an optional v, the numerals joined by dots, and rc or -rc with a numeral. */
  ghost predicate Spells(s: string, lead: string, dash: bool, parts: seq<string>, rc: Option<string>) {
    && lead in {"", "v", "V"}
    && parts != [] && AllNumerals(parts) && (rc.Some? ==> IsNumeral(rc.value))
    && s == lead + (Join(parts, '.') + Candidate(dash, rc))
  }

  function Candidate(dash: bool, rc: Option<string>): string {
    match rc
    case None => ""
    case Some(n) => (if dash then "-rc" else "rc") + n
  }

  lemma NumeralIsPlain(s: string)
    requires IsNumeral(s)
    ensures Plain(s)
  {
  }

  lemma CandidateJoins(dash: bool, rc: Option<string>)
    requires rc.Some? ==> IsNumeral(rc.value)
    ensures JoinRc(Candidate(dash, rc)) == Candidate(false, rc)
  {
    if rc.Some? {
      NumeralIsPlain(rc.value);
      NoRcToJoin(rc.value);
      NoRcToJoin("rc" + rc.value);
      JoinRcStep("-rc" + rc.value);
      assert ("-rc" + rc.value)[..3] == "-rc" && ("-rc" + rc.value)[3..] == rc.value;
    }
  }

  lemma SpelledIsParsed(value: string, lead: string, dash: bool, parts: seq<string>, rc: Option<string>)
    requires Spells(Strip(value), lead, dash, parts, rc)
    ensures ParseVersion(value) == Ok(VersionOf(parts, rc))
  {
    JoinedNumerals(parts);
    var front := Join(parts, '.');
    assert Strip(value)[|lead|] == front[0];
    assert NormalizeVersionText(value) == front + Candidate(dash, rc);
    JoinRcAfter(front, Candidate(dash, rc));
    CandidateJoins(dash, rc);
    PatternMatches(front + Candidate(false, rc), parts, rc);
  }

  lemma CandidateIsTail(front: string, rc: Option<string>)
    requires rc.Some? ==> IsNumeral(rc.value)
    ensures IsTail(Candidate(false, rc))
    ensures rc.Some? ==> front + "-" + Candidate(false, rc) == front + Candidate(true, rc)
  {
    if rc.Some? {
      NumeralIsPlain(rc.value);
      var tail := "rc" + rc.value;
      assert tail[..2] == "rc" && tail[2..] == rc.value;
      assert "-" + tail == "-rc" + rc.value && front + "-" + tail == front + ("-" + tail);
    }
  }

  lemma CandidateBack(t: string, parts: seq<string>, rc: Option<string>) returns (dash: bool)
    requires IsVersionText(JoinRc(t), parts, rc)
    ensures t == Join(parts, '.') + Candidate(dash, rc)
  {
    JoinedNumerals(parts);
    var front := Join(parts, '.');
    CandidateIsTail(front, rc);
    JoinRcBack(t, front, Candidate(false, rc));
    dash := t != front + Candidate(false, rc);
  }

  lemma LeadBack(value: string) returns (lead: string)
    ensures lead in {"", "v", "V"} && Strip(value) == lead + NormalizeVersionText(value)
  {
    var s := Strip(value);
    if s != "" && (s[0] == 'v' || s[0] == 'V') {
      lead := [s[0]];
      assert s == [s[0]] + s[1..];
    } else {
      lead := "";
      assert s == "" + s;
    }
  }

  /** The spelling s reads as the version v. */
  ghost predicate Reads(s: string, v: ParsedVersion, lead: string, dash: bool, parts: seq<string>, rc: Option<string>) {
    Spells(s, lead, dash, parts, rc) && v == VersionOf(parts, rc)
  }

  /** Main result: the parser accepts exactly these spellings, surrounding white space aside, and reads the version
      spelled. */
  lemma ParseIsPattern(value: string, v: ParsedVersion)
    ensures ParseVersion(value) == Ok(v) <==>
            exists lead, dash, parts, rc :: Reads(Strip(value), v, lead, dash, parts, rc)
  {
    if ParseVersion(value) == Ok(v) {
      var t := NormalizeVersionText(value);
      MatchIsPattern(JoinRc(t), v);
      var parts, rc :| IsVersionText(JoinRc(t), parts, rc) && v == VersionOf(parts, rc);
      var dash := CandidateBack(t, parts, rc);
      var lead := LeadBack(value);
      assert Reads(Strip(value), v, lead, dash, parts, rc);
    }
    if lead, dash, parts, rc :| Reads(Strip(value), v, lead, dash, parts, rc) {
      SpelledIsParsed(value, lead, dash, parts, rc);
    }
  }

  // ---- order ----

  /** Python's order on tuples of integers: a proper prefix is smaller. */
  predicate ReleaseLess(a: seq<nat>, b: seq<nat>) {
    b != [] && (a == [] || a[0] < b[0] || (a[0] == b[0] && ReleaseLess(a[1..], b[1..])))
  }

  predicate KeyLess(a: (seq<nat>, nat, nat), b: (seq<nat>, nat, nat)) {
    ReleaseLess(a.0, b.0) || (a.0 == b.0 && (a.1 < b.1 || (a.1 == b.1 && a.2 < b.2)))
  }

  lemma {:induction false} ReleaseOrder(a: seq<nat>, b: seq<nat>, c: seq<nat>)
    ensures ReleaseLess(a, b) || ReleaseLess(b, a) || a == b
    ensures !(ReleaseLess(a, b) && ReleaseLess(b, a)) && !ReleaseLess(a, a)
    ensures ReleaseLess(a, b) && ReleaseLess(b, c) ==> ReleaseLess(a, c)
  {
    if a != [] {
      if b != [] {
        ReleaseOrder(a[1..], b[1..], if c == [] then [] else c[1..]);
        assert a == [a[0]] + a[1..] && b == [b[0]] + b[1..];
      } else {
        ReleaseOrder(a[1..], [], []);
      }
    }
  }

  /** Sort keys are strictly and totally ordered. */
  lemma KeyOrder(a: (seq<nat>, nat, nat), b: (seq<nat>, nat, nat), c: (seq<nat>, nat, nat))
    ensures KeyLess(a, b) || KeyLess(b, a) || a == b
    ensures !(KeyLess(a, b) && KeyLess(b, a)) && !KeyLess(a, a)
    ensures KeyLess(a, b) && KeyLess(b, c) ==> KeyLess(a, c)
  {
    ReleaseOrder(a.0, b.0, c.0);
    ReleaseOrder(b.0, c.0, a.0);
  }

  lemma {:induction false} LaterInSuffix(prefix: seq<nat>, a: seq<nat>, b: seq<nat>)
    ensures ReleaseLess(prefix + a, prefix + b) <==> ReleaseLess(a, b)
  {
    if prefix == [] {
      assert prefix + a == a && prefix + b == b;
    } else {
      assert (prefix + a)[1..] == prefix[1..] + a && (prefix + b)[1..] == prefix[1..] + b;
      LaterInSuffix(prefix[1..], a, b);
    }
  }

  /** Main result: the first component that differs decides; a release that only lacks components comes first. */
  lemma FirstDifferenceDecides(prefix: seq<nat>, x: nat, a: seq<nat>, y: nat, b: seq<nat>)
    ensures ReleaseLess(prefix + ([x] + a), prefix + ([y] + b)) <==>  x < y || (x == y && ReleaseLess(a, b))
    ensures ReleaseLess(prefix, prefix + ([y] + b)) && !ReleaseLess(prefix + ([x] + a), prefix)
  {
    LaterInSuffix(prefix, [x] + a, [y] + b);
    LaterInSuffix(prefix, [], [y] + b);
    LaterInSuffix(prefix, [x] + a, []);
    assert prefix + [] == prefix && ([x] + a)[1..] == a && ([y] + b)[1..] == b;
  }

  /** Main result: versions are ordered by release, then candidates by number, then the stable version. */
  lemma CandidatesPrecedeTheRelease(a: ParsedVersion, b: ParsedVersion)
    requires a.prerelease == "" ==> a.number == 0
    requires b.prerelease == "" ==> b.number == 0
    ensures KeyLess(a.SortKey(), b.SortKey()) <==>
            || ReleaseLess(a.release, b.release)
            || (a.release == b.release && a.prerelease != "" && (b.prerelease == "" || a.number < b.number))
  {
  }

  // ---- the next version ----

  function PrintParts(release: seq<nat>): (r: seq<string>)
    ensures |r| == |release| && AllNumerals(r)
    ensures forall i :: 0 <= i < |r| ==> r[i] == PrintNat(release[i])
  {
    if release == [] then [] else [PrintNat(release[0])] + PrintParts(release[1..])
  }

  /** ".".join(str(part) for part in parts) */
  function PrintRelease(release: seq<nat>): string {
    Join(PrintParts(release), '.')
  }

  /** Printing a release and parsing the text gives the stable version back. */
  lemma ParsePrintRelease(release: seq<nat>)
    requires release != []
    ensures ParseVersion(PrintRelease(release)) == Ok(ParsedVersion(release, "", 0))
  {
    var parts, s := PrintParts(release), PrintRelease(release);
    JoinedNumerals(parts);
    assert NormalizeVersionText(s) == s;
    NoRcToJoin(s);
    PatternMatches(s, parts, None);
    forall i | 0 <= i < |release| ensures ParseNat(parts[i]) == release[i] {
      ParsePrintNat(release[i]);
    }
    assert Numbers(parts) == release;
  }

  /** Zeros appended up to n components. */
  function Padded(release: seq<nat>, n: nat): (r: seq<nat>)
    ensures |r| == if |release| < n then n else |release|
    ensures release <= r && forall i :: |release| <= i < |r| ==> r[i] == 0
  {
    if |release| < n then release + seq(n - |release|, _ => 0) else release
  }

  /** The release the smoke updater offers after v: a candidate's own release, otherwise one more in the last place. */
  function NextRelease(v: ParsedVersion): seq<nat> {
    var parts := Padded(v.release, 3);
    if v.prerelease != "" then parts else parts[..|parts| - 1] + [parts[|parts| - 1] + 1]
  }

  /** The next version sorts strictly after the current one. */
  lemma NextIsLater(v: ParsedVersion)
    ensures KeyLess(v.SortKey(), ParsedVersion(NextRelease(v), "", 0).SortKey())
  {
    var next := NextRelease(v);
    var k := if |v.release| < 3 then |v.release| else if v.prerelease != "" then |next| else |next| - 1;
    assert v.release == next[..k] + v.release[k..];
    assert next == next[..k] + next[k..];
    LaterInSuffix(next[..k], v.release[k..], next[k..]);
  }

  lemma {:induction false} NothingBetween(parts: seq<nat>, w: seq<nat>)
    requires |w| == |parts| > 0 && ReleaseLess(parts, w)
    ensures !ReleaseLess(w, parts[..|parts| - 1] + [parts[|parts| - 1] + 1])
  {
    if |parts| > 1 && w[0] == parts[0] {
      NothingBetween(parts[1..], w[1..]);
      assert (parts[..|parts| - 1] + [parts[|parts| - 1] + 1])[1..] ==
             parts[1..][..|parts| - 2] + [parts[1..][|parts| - 2] + 1];
    }
  }

  /** The next version is the least of its length: after a candidate no earlier one is not before it, after a stable
      version none lies between. */
  lemma NextIsLeast(v: ParsedVersion, w: seq<nat>)
    requires |w| == |NextRelease(v)|
    requires if v.prerelease == "" then ReleaseLess(Padded(v.release, 3), w) else !ReleaseLess(w, Padded(v.release, 3))
    ensures !ReleaseLess(w, NextRelease(v))
  {
    if v.prerelease == "" {
      NothingBetween(Padded(v.release, 3), w);
    }
  }

  /** Main result, _next_smoke_update_version: a parseable version gets a text that parses to a stable version with
      a strictly greater sort key; anything else is refused as the parser refuses it. */
  method NextSmokeUpdateVersion(currentVersion: string) returns (r: Result<string, VersionError>)
    ensures match ParseVersion(currentVersion)
            case Err(e) => r == Err(e)
            case Ok(v) => r.Ok? && IsLaterRelease(v, ParseVersion(r.value))
  {
    var parsed := ParseVersion(currentVersion);
    if parsed.Err? {
      return Err(parsed.error);
    }
    var parts := PadAndBump(parsed.value);
    NextIsLater(parsed.value);
    ParsePrintRelease(parts);
    return Ok(PrintRelease(parts));
  }

  /** next is a stable version that sorts strictly after v. */
  ghost predicate IsLaterRelease(v: ParsedVersion, next: Result<ParsedVersion, VersionError>) {
    next == Ok(ParsedVersion(NextRelease(v), "", 0)) && KeyLess(v.SortKey(), next.value.SortKey())
  }

  /** The list operations of _next_smoke_update_version. */
  method PadAndBump(v: ParsedVersion) returns (parts: seq<nat>)
    ensures parts == NextRelease(v)
  {
    parts := v.release;
    while |parts| < 3
      invariant parts == Padded(v.release, |parts|)
      invariant |parts| <= 3 || parts == v.release
    {
      parts := parts + [0];
    }
    if v.prerelease != "" {
      return;
    }
    parts := parts[|parts| - 1 := parts[|parts| - 1] + 1];
  }
}
