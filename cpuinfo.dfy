/**
  The text side of SystemID.raspberrypi_cpu: finding the Hardware,
  Revision and Serial lines of a /proc/cpuinfo text, and turning them into
  a "RaspberryPi/<model>/<serial>" identifier.

  Each of the three patterns '^Key\s+:\s+(\w+)$' (multi-line,
  case-insensitive) is modelled as a matcher over one line at a time;
  `search` returns the capture of the first line that matches.
 */
module CpuInfo {
  import opened Wrappers

  // ---------------------------------------------------------------------
  // Splitting text into lines

  /** s cut at every occurrence of sep (as str.split(sep)). */
  function Split(s: string, sep: char): (parts: seq<string>)
    ensures |parts| > 0
    ensures forall i :: 0 <= i < |parts| ==> sep !in parts[i]
    ensures Join(parts, sep) == s
  {
    if s == [] then [""]
    else
      var rest := Split(s[1..], sep);
      if s[0] == sep then
        assert Join([""] + rest, sep) == [sep] + Join(rest, sep) by {
          assert ([""] + rest)[1..] == rest;
        }
        assert s == [s[0]] + s[1..];
        [""] + rest
      else
        var parts := [[s[0]] + rest[0]] + rest[1..];
        assert parts[1..] == rest[1..];
        assert s == [s[0]] + s[1..];
        parts
  }

  /** The parts put back together with sep between them. */
  function Join(parts: seq<string>, sep: char): string
    requires |parts| > 0
  {
    if |parts| == 1 then parts[0] else parts[0] + [sep] + Join(parts[1..], sep)
  }

  /** A piece without the separator is its own single part. */
  lemma {:induction false} SplitNoSeparator(a: string, sep: char)
    requires sep !in a
    ensures Split(a, sep) == [a]
  {
    if a != [] {
      SplitNoSeparator(a[1..], sep);
      assert a == [a[0]] + a[1..];
    }
  }

  /** Splitting undoes Join one part at a time. */
  lemma {:induction false} SplitCons(a: string, sep: char, rest: string)
    requires sep !in a
    ensures Split(a + [sep] + rest, sep) == [a] + Split(rest, sep)
  {
    var s := a + [sep] + rest;
    if a == [] {
      assert s[1..] == rest;
    } else {
      assert s[1..] == a[1..] + [sep] + rest;
      SplitCons(a[1..], sep, rest);
      assert [s[0]] + a[1..] == a;
    }
  }

  function Lines(text: string): seq<string>
  {
    Split(text, '\n')
  }

  // ---------------------------------------------------------------------
  // Character classes of the patterns (ASCII)

  /** \s within one line: space, tab, carriage return, vertical tab, form feed. */
  predicate IsSpace(c: char) {
    c == ' ' || c == '\t' || c == '\r' || c == '\U{B}' || c == '\U{C}'
  }

  /** \w: letters, digits and the underscore. */
  predicate IsWord(c: char) {
    ('a' <= c <= 'z') || ('A' <= c <= 'Z') || ('0' <= c <= '9') || c == '_'
  }

  predicate AllSpace(s: string) {
    forall i :: 0 <= i < |s| ==> IsSpace(s[i])
  }

  predicate AllWord(s: string) {
    forall i :: 0 <= i < |s| ==> IsWord(s[i])
  }

  function Lower(c: char): char {
    if 'A' <= c <= 'Z' then (c as int + 32) as char else c
  }

  /** Equal up to the case of ASCII letters (re.IGNORECASE on the literal key). */
  predicate SameIgnoringCase(a: string, b: string) {
    |a| == |b| && forall i :: 0 <= i < |a| ==> Lower(a[i]) == Lower(b[i])
  }

  /** Length of the longest all-whitespace prefix of s (what a greedy \s* consumes). */
  function LeadingSpace(s: string): (n: nat)
    ensures n <= |s| && AllSpace(s[..n])
    ensures n < |s| ==> !IsSpace(s[n])
  {
    if s == [] || !IsSpace(s[0]) then 0
    else
      var n := 1 + LeadingSpace(s[1..]);
      assert forall i :: 1 <= i < n ==> s[..n][i] == s[1..][..n - 1][i - 1];
      n
  }

  // ---------------------------------------------------------------------
  // One line against '^Key\s+:\s+(\w+)$'

  /** '\s+(\w+)$': the word after at least one space, running to the end. */
  function MatchValue(s: string): Option<string>
  {
    var n := LeadingSpace(s);
    if n == 0 || n == |s| || !AllWord(s[n..]) then None else Some(s[n..])
  }

  /** '\s+:\s+(\w+)$': what follows the key. */
  function MatchAfterKey(s: string): Option<string>
  {
    var n := LeadingSpace(s);
    if n == 0 || n == |s| || s[n] != ':' then None else MatchValue(s[n + 1..])
  }

  /** The captured word when the line matches the pattern for key, else None. */
  function MatchLine(key: string, line: string): (r: Option<string>)
    ensures r.Some? ==> |r.value| > 0 && AllWord(r.value)
  {
    if |line| < |key| || !SameIgnoringCase(line[..|key|], key) then None
    else MatchAfterKey(line[|key|..])
  }

  lemma {:induction false} LeadingSpaceExact(ws: string, rest: string)
    requires AllSpace(ws) && (rest == [] || !IsSpace(rest[0]))
    ensures LeadingSpace(ws + rest) == |ws|
  {
    if ws == [] {
      assert ws + rest == rest;
    } else {
      assert (ws + rest)[0] == ws[0];
      assert (ws + rest)[1..] == ws[1..] + rest;
      LeadingSpaceExact(ws[1..], rest);
    }
  }

  lemma MatchValueComplete(ws: string, word: string)
    requires |ws| > 0 && AllSpace(ws) && |word| > 0 && AllWord(word)
    ensures MatchValue(ws + word) == Some(word)
  {
    LeadingSpaceExact(ws, word);
    assert (ws + word)[|ws|..] == word;
  }

  lemma MatchAfterKeyComplete(ws1: string, ws2: string, word: string)
    requires |ws1| > 0 && AllSpace(ws1) && |ws2| > 0 && AllSpace(ws2)
    requires |word| > 0 && AllWord(word)
    ensures MatchAfterKey(ws1 + ([':'] + (ws2 + word))) == Some(word)
  {
    var tail := [':'] + (ws2 + word);
    LeadingSpaceExact(ws1, tail);
    assert (ws1 + tail)[|ws1|] == ':';
    assert (ws1 + tail)[|ws1| + 1..] == ws2 + word;
    MatchValueComplete(ws2, word);
  }

  /** Every line of the pattern's shape matches, capturing its word. */
  lemma MatchLineComplete(key: string, k: string, ws1: string, ws2: string, word: string)
    requires SameIgnoringCase(k, key)
    requires |ws1| > 0 && AllSpace(ws1) && |ws2| > 0 && AllSpace(ws2)
    requires |word| > 0 && AllWord(word)
    ensures MatchLine(key, k + ws1 + [':'] + ws2 + word) == Some(word)
  {
    var afterKey := ws1 + ([':'] + (ws2 + word));
    assert k + ws1 + [':'] + ws2 + word == k + afterKey;
    assert (k + afterKey)[..|key|] == k;
    assert (k + afterKey)[|key|..] == afterKey;
    MatchAfterKeyComplete(ws1, ws2, word);
  }

  lemma MatchValueSound(s: string) returns (ws: string)
    requires MatchValue(s).Some?
    ensures |ws| > 0 && AllSpace(ws)
    ensures var word := MatchValue(s).value; |word| > 0 && AllWord(word) && s == ws + word
  {
    var n := LeadingSpace(s);
    ws := s[..n];
    assert s == s[..n] + s[n..];
  }

  lemma MatchAfterKeySound(s: string) returns (ws1: string, ws2: string)
    requires MatchAfterKey(s).Some?
    ensures |ws1| > 0 && AllSpace(ws1) && |ws2| > 0 && AllSpace(ws2)
    ensures var word := MatchAfterKey(s).value;
      |word| > 0 && AllWord(word) && s == ws1 + [':'] + ws2 + word
  {
    var n := LeadingSpace(s);
    var afterColon := s[n + 1..];
    ws1 := s[..n];
    ws2 := MatchValueSound(afterColon);
    assert s == ws1 + [':'] + afterColon;
  }

  /**
    A match only happens on a line of the pattern's shape: the key (up to
    case), spaces, ':', spaces and the captured word.
   */
  lemma MatchLineSound(key: string, line: string) returns (ws1: string, ws2: string)
    requires MatchLine(key, line).Some?
    ensures |key| <= |line| && SameIgnoringCase(line[..|key|], key)
    ensures |ws1| > 0 && AllSpace(ws1) && |ws2| > 0 && AllSpace(ws2)
    ensures var word := MatchLine(key, line).value;
      |word| > 0 && AllWord(word) && line[|key|..] == ws1 + [':'] + ws2 + word
  {
    ws1, ws2 := MatchAfterKeySound(line[|key|..]);
  }

  // ---------------------------------------------------------------------
  // re.search over the whole text: the first matching line wins

  function FirstMatch(key: string, lines: seq<string>): (r: Option<string>)
    ensures r.Some? ==> |r.value| > 0 && AllWord(r.value)
  {
    if lines == [] then None
    else if MatchLine(key, lines[0]).Some? then MatchLine(key, lines[0])
    else FirstMatch(key, lines[1..])
  }

  /** re.search with MULTILINE: the capture of the first matching line; always a word. */
  function Search(key: string, text: string): (r: Option<string>)
    ensures r.Some? ==> |r.value| > 0 && AllWord(r.value)
  {
    FirstMatch(key, Lines(text))
  }

  /** The capture of line i is found when no earlier line matches. */
  lemma {:induction false} FirstMatchAt(key: string, lines: seq<string>, i: nat)
    requires i < |lines| && MatchLine(key, lines[i]).Some?
    requires forall j :: 0 <= j < i ==> MatchLine(key, lines[j]).None?
    ensures FirstMatch(key, lines) == MatchLine(key, lines[i])
  {
    if i > 0 {
      assert MatchLine(key, lines[0]).None?;
      FirstMatchAt(key, lines[1..], i - 1);
    }
  }

  /** No capture exactly when no line matches. */
  lemma {:induction false} FirstMatchNone(key: string, lines: seq<string>)
    ensures FirstMatch(key, lines).None? <==>
      forall j :: 0 <= j < |lines| ==> MatchLine(key, lines[j]).None?
  {
    if lines != [] {
      FirstMatchNone(key, lines[1..]);
      assert forall j :: 1 <= j < |lines| ==> lines[j] == lines[1..][j - 1];
    }
  }

  /** A capture always comes from some line with no earlier matching line. */
  lemma {:induction false} FirstMatchFrom(key: string, lines: seq<string>) returns (i: nat)
    requires FirstMatch(key, lines).Some?
    ensures i < |lines| && MatchLine(key, lines[i]) == FirstMatch(key, lines)
    ensures forall j :: 0 <= j < i ==> MatchLine(key, lines[j]).None?
  {
    if MatchLine(key, lines[0]).Some? {
      i := 0;
    } else {
      var k := FirstMatchFrom(key, lines[1..]);
      i := k + 1;
      assert forall j :: 1 <= j < i ==> lines[j] == lines[1..][j - 1];
    }
  }

  // ---------------------------------------------------------------------
  // str.strip('0 ')

  predicate IsZeroOrSpace(c: char) {
    c == '0' || c == ' '
  }

  predicate AllZeroOrSpace(s: string) {
    forall i :: 0 <= i < |s| ==> IsZeroOrSpace(s[i])
  }

  /** str.lstrip('0 '): drops every leading '0' and ' '. */
  function StripLeading(s: string): (r: string)
    ensures |r| <= |s| && r == s[|s| - |r|..]
    ensures AllZeroOrSpace(s[..|s| - |r|])
    ensures r == [] || !IsZeroOrSpace(r[0])
  {
    if s != [] && IsZeroOrSpace(s[0]) then
      var r := StripLeading(s[1..]);
      assert s[..|s| - |r|] == [s[0]] + s[1..][..|s| - 1 - |r|];
      r
    else s
  }

  /** str.rstrip('0 '): drops every trailing '0' and ' '. */
  function StripTrailing(s: string): (r: string)
    ensures |r| <= |s| && r == s[..|r|]
    ensures AllZeroOrSpace(s[|r|..])
    ensures r == [] || !IsZeroOrSpace(r[|r| - 1])
  {
    if s != [] && IsZeroOrSpace(s[|s| - 1]) then
      var t := s[..|s| - 1];
      var r := StripTrailing(t);
      assert s[|r|..] == t[|r|..] + [s[|s| - 1]];
      r
    else s
  }

  /** str.strip('0 '), as applied to the captured serial number. */
  function Strip(s: string): (r: string)
    ensures |r| <= |s|
    ensures r == [] || (!IsZeroOrSpace(r[0]) && !IsZeroOrSpace(r[|r| - 1]))
  {
    StripTrailing(StripLeading(s))
  }

  /**
    Strip(s) is the slice s[i..j] left once every '0' and ' ' is removed
    from both ends: the cut-off ends hold only those characters, and the
    slice neither starts nor ends with one.
   */
  lemma StripIsSlice(s: string) returns (i: nat, j: nat)
    ensures i <= j <= |s| && Strip(s) == s[i..j]
    ensures AllZeroOrSpace(s[..i]) && AllZeroOrSpace(s[j..])
    ensures i < j ==> !IsZeroOrSpace(s[i]) && !IsZeroOrSpace(s[j - 1])
  {
    var l := StripLeading(s);
    var r := StripTrailing(l);
    i := |s| - |l|;
    j := i + |r|;
    assert r == s[i..j];
    assert s[j..] == l[|r|..];
  }

  lemma StripIdempotent(s: string)
    ensures Strip(Strip(s)) == Strip(s)
  {
    var l := StripLeading(s);
    var r := StripTrailing(l);
    if r != [] {
      assert r[0] == l[0];
      assert StripLeading(r) == r;
      assert StripTrailing(r) == r;
    } else {
      assert StripLeading(r) == r;
    }
  }

  lemma {:induction false} StripLeadingExact(z: string, core: string)
    requires AllZeroOrSpace(z) && (core == [] || !IsZeroOrSpace(core[0]))
    ensures StripLeading(z + core) == core
  {
    if z == [] {
      assert z + core == core;
    } else {
      assert (z + core)[1..] == z[1..] + core;
      StripLeadingExact(z[1..], core);
    }
  }

  lemma {:induction false} StripTrailingExact(core: string, z: string)
    requires AllZeroOrSpace(z) && (core == [] || !IsZeroOrSpace(core[|core| - 1]))
    ensures StripTrailing(core + z) == core
  {
    if z == [] {
      assert core + z == core;
    } else {
      var s := core + z;
      assert s[..|s| - 1] == core + z[..|z| - 1];
      StripTrailingExact(core, z[..|z| - 1]);
    }
  }

  /** Zeros and spaces around a core that neither starts nor ends with one are all removed. */
  lemma StripExact(z1: string, core: string, z2: string)
    requires AllZeroOrSpace(z1) && AllZeroOrSpace(z2)
    requires core == [] || (!IsZeroOrSpace(core[0]) && !IsZeroOrSpace(core[|core| - 1]))
    ensures Strip(z1 + core + z2) == core
  {
    if core == [] {
      assert z1 + core + z2 == (z1 + z2) + [];
      StripLeadingExact(z1 + z2, []);
    } else {
      assert z1 + core + z2 == z1 + (core + z2);
      StripLeadingExact(z1, core + z2);
      StripTrailingExact(core, z2);
    }
  }

  function Zeros(n: nat): (z: string)
    ensures |z| == n && forall i :: 0 <= i < n ==> z[i] == '0'
  {
    seq(n, _ => '0')
  }

  /** A word loses only leading '0's to str.lstrip('0 '), as it holds no space. */
  lemma {:induction false} StripLeadingWord(s: string)
    requires AllWord(s)
    ensures s == Zeros(|s| - |StripLeading(s)|) + StripLeading(s)
  {
    var k := |s| - |StripLeading(s)|;
    forall i | 0 <= i < k
      ensures s[..k][i] == '0'
    {
      assert IsWord(s[i]) && IsZeroOrSpace(s[..k][i]);
    }
    assert s[..k] == Zeros(k);
    assert s == s[..k] + s[k..];
  }

  /**
    str.lstrip('0 ') loses nothing on fixed-width serials: two serials of
    the same length made of word characters that strip to the same text
    are the same serial.
   */
  lemma StripLeadingInjective(a: string, b: string)
    requires |a| == |b| && AllWord(a) && AllWord(b)
    requires StripLeading(a) == StripLeading(b)
    ensures a == b
  {
    StripLeadingWord(a);
    StripLeadingWord(b);
  }

  /**
    str.strip('0 ') also removes trailing zeros, so two different serials
    of the same length can give the same identifier part: a core shifted
    right by t zero digits ('00000000ae463400' against '0000000000ae4634').
   */
  lemma SerialsCollide(core: string, k: nat, t: nat)
    requires t > 0 && |core| > 0
    requires !IsZeroOrSpace(core[0]) && !IsZeroOrSpace(core[|core| - 1])
    ensures var a, b := Zeros(k) + core + Zeros(t), Zeros(k + t) + core;
      |a| == |b| && a != b && Strip(a) == Strip(b)
  {
    var a, b := Zeros(k) + core + Zeros(t), Zeros(k + t) + core;
    StripExact(Zeros(k), core, Zeros(t));
    StripExact(Zeros(k + t), core, []);
    assert b == Zeros(k + t) + core + [];
    assert a[k] == core[0] && b[k] == '0';
  }

  // ---------------------------------------------------------------------
  // SystemID.rpi_hardware and SystemID.rpi_revisions

  const RpiHardware: set<string> := {"BCM2708", "BCM2709"}

  /** The entries of the rpi_revisions dict display, in source order. */
  const RevisionEntries: seq<(string, string)> := [
    ("Beta", "B (Beta) ? 256MB (Q1 2012 Beta Board)"),
    ("0002", "B 1.0 256MB (Q1 2012)"),
    ("0003", "B ECN0001 1.0 256MB (Q3 2012)"),
    ("0004", "B 2.0 256MB (Q3 2012 Sony)"),
    ("0005", "B 2.0 256MB (Q4 2012 Qisda)"),
    ("0006", "B 2.0 256MB (Q4 2012 Egoman)"),
    ("0007", "A 2.0 256MB (Q1 2013 Egoman)"),
    ("0008", "A 2.0 256MB (Q1 2013 Sony)"),
    ("0009", "A 2.0 256MB (Q1 2013 Qisda)"),
    ("000d", "B 2.0 512MB (Q4 2012 Egoman)"),
    ("000e", "B 2.0 512MB (Q4 2012 Sony)"),
    ("000f", "B 2.0 512MB (Q4 2012 Qisda)"),
    ("0010", "B+ 1.0 512MB (Q3 2014 Sony)"),
    ("0011", "Compute Module 1.0 512MB (Q2 2014 Sony)"),
    ("0012", "A+ 1.1 256MB (Q4 2014 Sony)"),
    ("0013", "B+ 1.2 512MB (Q1 2015)"),
    ("0014", "Compute Module 1.0 512MB (Q2 2014 Embest)"),
    ("0015", "A+ 1.1 256MB (Embest)"),
    ("a01041", "2 Model B 1.1 1GB (Q1 2015 Sony)"),
    ("a21041", "2 Model B 1.1 1GB (Q1 2015 Embest)"),
    ("900092", "Zero 1.2 512MB (Q4 2015 Sony)"),
    ("900093", "Zero 1.3 512MB (Q2 2016)"),
    ("a02082", "3 Model B 1.2 1024MB (Q1 2016 Sony)"),
    ("a22082", "3 Model B 1.2 1024MB (Q1 2016)")
  ]

  /** A dict display: entries inserted in order, a later key replacing an earlier one. */
  function DictOf(entries: seq<(string, string)>): map<string, string>
  {
    if entries == [] then map[]
    else DictOf(entries[..|entries| - 1])[entries[|entries| - 1].0 := entries[|entries| - 1].1]
  }

  const RpiRevisions: map<string, string> := DictOf(RevisionEntries)

  /** The value stored under a key is the one of its last entry. */
  lemma {:induction false} DictOfAt(entries: seq<(string, string)>, i: nat)
    requires i < |entries|
    requires forall j :: i < j < |entries| ==> entries[j].0 != entries[i].0
    ensures entries[i].0 in DictOf(entries) && DictOf(entries)[entries[i].0] == entries[i].1
  {
    if i < |entries| - 1 {
      DictOfAt(entries[..|entries| - 1], i);
    }
  }

  /** A key without an entry is not in the dict. */
  lemma {:induction false} DictOfAbsent(entries: seq<(string, string)>, k: string)
    requires forall j :: 0 <= j < |entries| ==> entries[j].0 != k
    ensures k !in DictOf(entries)
  {
    if entries != [] {
      DictOfAbsent(entries[..|entries| - 1], k);
    }
  }

  /** The keys of the dict are exactly the keys of its entries. */
  lemma {:induction false} DictOfKeys(entries: seq<(string, string)>, k: string)
    ensures k in DictOf(entries) <==> exists i :: 0 <= i < |entries| && entries[i].0 == k
  {
    if entries != [] {
      var pre := entries[..|entries| - 1];
      DictOfKeys(pre, k);
      assert forall i :: 0 <= i < |pre| ==> pre[i] == entries[i];
    }
  }

  /**
    A revision code has a model name exactly when it is one of the table's
    codes, compared exactly (so '000E' has none).
   */
  lemma RevisionCodes(code: string)
    ensures code in RpiRevisions <==> exists i :: 0 <= i < |RevisionEntries| && RevisionEntries[i].0 == code
  {
    DictOfKeys(RevisionEntries, code);
  }

  predicate NoSlash(s: string) {
    forall i :: 0 <= i < |s| ==> s[i] != '/'
  }

  /** Every value of the dict is the value of one of its entries. */
  lemma {:induction false} DictOfNoSlash(entries: seq<(string, string)>)
    requires forall i :: 0 <= i < |entries| ==> NoSlash(entries[i].1)
    ensures forall k :: k in DictOf(entries) ==> NoSlash(DictOf(entries)[k])
  {
    if entries != [] {
      DictOfNoSlash(entries[..|entries| - 1]);
    }
  }

  // The table is checked two entries at a time, which keeps each proof small.
  lemma RevisionNamesHaveNoSlash0()
    ensures NoSlash(RevisionEntries[0].1) && NoSlash(RevisionEntries[1].1)
  {
  }

  lemma RevisionNamesHaveNoSlash1()
    ensures NoSlash(RevisionEntries[2].1) && NoSlash(RevisionEntries[3].1)
  {
  }

  lemma RevisionNamesHaveNoSlash2()
    ensures NoSlash(RevisionEntries[4].1) && NoSlash(RevisionEntries[5].1)
  {
  }

  lemma RevisionNamesHaveNoSlash3()
    ensures NoSlash(RevisionEntries[6].1) && NoSlash(RevisionEntries[7].1)
  {
  }

  lemma RevisionNamesHaveNoSlash4()
    ensures NoSlash(RevisionEntries[8].1) && NoSlash(RevisionEntries[9].1)
  {
  }

  lemma RevisionNamesHaveNoSlash5()
    ensures NoSlash(RevisionEntries[10].1) && NoSlash(RevisionEntries[11].1)
  {
  }

  lemma RevisionNamesHaveNoSlash6()
    ensures NoSlash(RevisionEntries[12].1) && NoSlash(RevisionEntries[13].1)
  {
  }

  lemma RevisionNamesHaveNoSlash7()
    ensures NoSlash(RevisionEntries[14].1) && NoSlash(RevisionEntries[15].1)
  {
  }

  lemma RevisionNamesHaveNoSlash8()
    ensures NoSlash(RevisionEntries[16].1) && NoSlash(RevisionEntries[17].1)
  {
  }

  lemma RevisionNamesHaveNoSlash9()
    ensures NoSlash(RevisionEntries[18].1) && NoSlash(RevisionEntries[19].1)
  {
  }

  lemma RevisionNamesHaveNoSlash10()
    ensures NoSlash(RevisionEntries[20].1) && NoSlash(RevisionEntries[21].1)
  {
  }

  lemma RevisionNamesHaveNoSlash11()
    ensures NoSlash(RevisionEntries[22].1) && NoSlash(RevisionEntries[23].1)
  {
  }


  /** No model name holds a '/', so the identifier's fields stay separable. */
  lemma RevisionNamesHaveNoSlash()
    ensures forall code :: code in RpiRevisions ==> '/' !in RpiRevisions[code]
  {
    RevisionNamesHaveNoSlash0();
    RevisionNamesHaveNoSlash1();
    RevisionNamesHaveNoSlash2();
    RevisionNamesHaveNoSlash3();
    RevisionNamesHaveNoSlash4();
    RevisionNamesHaveNoSlash5();
    RevisionNamesHaveNoSlash6();
    RevisionNamesHaveNoSlash7();
    RevisionNamesHaveNoSlash8();
    RevisionNamesHaveNoSlash9();
    RevisionNamesHaveNoSlash10();
    RevisionNamesHaveNoSlash11();
    DictOfNoSlash(RevisionEntries);
  }

  // ---------------------------------------------------------------------
  // SystemID.raspberrypi_cpu, with the file's text passed in

  /** True when the first Hardware line names a Raspberry Pi SoC (exact, case-sensitive). */
  predicate IsRaspberryPi(text: string)
  {
    var hw := Search("Hardware", text);
    hw.Some? && hw.value in RpiHardware
  }

  /**
    Stated line by line: the text is a Raspberry Pi's exactly when some line
    captures 'BCM2708' or 'BCM2709' for the Hardware key and no earlier line
    matches that key at all.
   */
  lemma IsRaspberryPiByLines(text: string)
    ensures IsRaspberryPi(text) <==>
      exists i :: 0 <= i < |Lines(text)| &&
        (forall j :: 0 <= j < i ==> MatchLine("Hardware", Lines(text)[j]).None?) &&
        (MatchLine("Hardware", Lines(text)[i]) == Some("BCM2708") ||
         MatchLine("Hardware", Lines(text)[i]) == Some("BCM2709"))
  {
    var lines := Lines(text);
    if IsRaspberryPi(text) {
      var i := FirstMatchFrom("Hardware", lines);
    }
    if exists i :: 0 <= i < |lines| &&
        (forall j :: 0 <= j < i ==> MatchLine("Hardware", lines[j]).None?) &&
        (MatchLine("Hardware", lines[i]) == Some("BCM2708") ||
         MatchLine("Hardware", lines[i]) == Some("BCM2709"))
    {
      var i :| 0 <= i < |lines| &&
        (forall j :: 0 <= j < i ==> MatchLine("Hardware", lines[j]).None?) &&
        (MatchLine("Hardware", lines[i]) == Some("BCM2708") ||
         MatchLine("Hardware", lines[i]) == Some("BCM2709"));
      FirstMatchAt("Hardware", lines, i);
    }
  }

  /** The serial field: 'unknown' without a Serial line, else the capture stripped of '0' and ' '. */
  function SerialOf(text: string): string {
    var m := Search("Serial", text);
    if m.None? then "unknown" else Strip(m.value)
  }

  /** The model field: by the first Revision line's code, looked up exactly in RpiRevisions. */
  function ModelOf(text: string): string {
    var rev := Search("Revision", text);
    if rev.None? then "unknown_model"
    else if rev.value in RpiRevisions then RpiRevisions[rev.value]
    else "model_" + rev.value
  }

  /**
    SystemID.raspberrypi_cpu: the identifier of a Raspberry Pi, or None
    for any other machine.
   */
  function RaspberrypiCpu(text: string): (r: Option<string>)
    ensures r.None? <==> !IsRaspberryPi(text)
  {
    var hw := Search("Hardware", text);
    var rev := Search("Revision", text);
    var serialMatch := Search("Serial", text);
    var serial := if serialMatch.None? then "unknown" else Strip(serialMatch.value);
    if hw.None? then None
    else if hw.value !in RpiHardware then None
    else if rev.None? then Some("RaspberryPi/unknown_model/" + serial)
    else if rev.value !in RpiRevisions then Some("RaspberryPi/model_" + rev.value + "/" + serial)
    else Some("RaspberryPi/" + RpiRevisions[rev.value] + "/" + serial)
  }

  lemma RaspberrypiCpuShape(text: string)
    requires IsRaspberryPi(text)
    ensures RaspberrypiCpu(text) == Some("RaspberryPi" + "/" + ModelOf(text) + "/" + SerialOf(text))
  {
    var rev := Search("Revision", text);
    var serial := SerialOf(text);
    if rev.None? {
      UnknownModelSpelling(serial);
    } else if rev.value !in RpiRevisions {
      CodeModelSpelling(rev.value, serial);
    } else {
      KnownModelSpelling(RpiRevisions[rev.value], serial);
    }
  }

  lemma UnknownModelSpelling(serial: string)
    ensures "RaspberryPi/unknown_model/" + serial == "RaspberryPi" + "/" + "unknown_model" + "/" + serial
  {
    assert "RaspberryPi/unknown_model/" == "RaspberryPi" + "/" + "unknown_model" + "/";
  }

  lemma CodeModelSpelling(code: string, serial: string)
    ensures "RaspberryPi/model_" + code + "/" + serial == "RaspberryPi" + "/" + ("model_" + code) + "/" + serial
  {
    assert "RaspberryPi/model_" == "RaspberryPi" + "/" + "model_";
  }

  lemma KnownModelSpelling(name: string, serial: string)
    ensures "RaspberryPi/" + name + "/" + serial == "RaspberryPi" + "/" + name + "/" + serial
  {
    assert "RaspberryPi/" == "RaspberryPi" + "/";
  }

  /**
    A Raspberry Pi identifier splits at '/' into exactly three fields: the
    family, the model (from the first Revision line) and the serial (from
    the first Serial line), so both can be read back from it.
   */
  lemma RaspberrypiCpuFields(text: string)
    requires IsRaspberryPi(text)
    ensures RaspberrypiCpu(text).Some?
    ensures Split(RaspberrypiCpu(text).value, '/') == ["RaspberryPi", ModelOf(text), SerialOf(text)]
  {
    RaspberrypiCpuShape(text);
    SerialHasNoSlash(text);
    ModelHasNoSlash(text);
    SplitThree("RaspberryPi", ModelOf(text), SerialOf(text));
  }

  lemma SplitThree(a: string, b: string, c: string)
    requires '/' !in a && '/' !in b && '/' !in c
    ensures Split(a + "/" + b + "/" + c, '/') == [a, b, c]
  {
    assert a + "/" + b + "/" + c == a + ['/'] + (b + ['/'] + c);
    SplitCons(a, '/', b + ['/'] + c);
    SplitCons(b, '/', c);
    SplitNoSeparator(c, '/');
  }

  lemma WordSlice(s: string, i: nat, j: nat)
    requires AllWord(s) && i <= j <= |s|
    ensures AllWord(s[i..j])
  {
    assert forall k :: 0 <= k < j - i ==> s[i..j][k] == s[i + k];
  }

  lemma StripKeepsWord(s: string)
    requires AllWord(s)
    ensures AllWord(Strip(s))
  {
    var l := StripLeading(s);
    WordSlice(s, |s| - |l|, |s|);
    WordSlice(l, 0, |StripTrailing(l)|);
  }

  lemma WordHasNoSlash(s: string)
    requires AllWord(s)
    ensures '/' !in s
  {
    forall i | 0 <= i < |s|
      ensures s[i] != '/'
    {
      assert IsWord(s[i]);
    }
  }

  lemma SerialHasNoSlash(text: string)
    ensures '/' !in SerialOf(text)
  {
    var m := Search("Serial", text);
    if m.Some? {
      StripKeepsWord(m.value);
      WordHasNoSlash(Strip(m.value));
    }
  }

  lemma ModelHasNoSlash(text: string)
    ensures '/' !in ModelOf(text)
  {
    var rev := Search("Revision", text);
    if rev.Some? {
      if rev.value in RpiRevisions {
        RevisionNamesHaveNoSlash();
      } else {
        assert AllWord("model_");
        assert AllWord("model_" + rev.value);
        WordHasNoSlash("model_" + rev.value);
      }
    }
  }
}
