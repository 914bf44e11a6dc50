/** How the native host finds the Firefox profile to write into: it scans
    `profiles.ini` line by line for the first section marked `Default=1` that
    a later section header closes, and resolves that section's `Path` against
    the Mozilla directory. */
module ProfilesIni {
  import opened Wrappers
  import opened Text

  /** The characters Python's `str.strip()` removes (`str.isspace`). */
  predicate IsSpace(c: char) {
    var n := c as int;
    || 0x09 <= n <= 0x0D || 0x1C <= n <= 0x20
    || n == 0x85 || n == 0xA0 || n == 0x1680
    || 0x2000 <= n <= 0x200A
    || n == 0x2028 || n == 0x2029 || n == 0x202F || n == 0x205F || n == 0x3000
  }

  /** Every character of `s[lo..hi]` is white space. */
  ghost predicate Blank(s: string, lo: nat, hi: nat)
    requires lo <= hi <= |s|
  {
    forall k :: lo <= k < hi ==> IsSpace(s[k])
  }

  function TextStart(s: string, i: nat): (j: nat)
    requires i <= |s| && Blank(s, 0, i)
    ensures i <= j <= |s| && Blank(s, 0, j)
    ensures j == |s| || !IsSpace(s[j])
    decreases |s| - i
  {
    if i < |s| && IsSpace(s[i]) then TextStart(s, i + 1) else i
  }

  function TextEnd(s: string, lo: nat, j: nat): (e: nat)
    requires lo <= j <= |s| && Blank(s, j, |s|)
    ensures lo <= e <= j && Blank(s, e, |s|)
    ensures e == lo || !IsSpace(s[e - 1])
    decreases j
  {
    if j > lo && IsSpace(s[j - 1]) then TextEnd(s, lo, j - 1) else j
  }

  /** `s.strip()`: `s` without its leading and trailing white space. */
  function Strip(s: string): (r: string)
    ensures r == [] || (!IsSpace(r[0]) && !IsSpace(r[|r| - 1]))
    ensures exists i :: 0 <= i && i + |r| <= |s| && s[i..i + |r|] == r && Blank(s, 0, i) && Blank(s, i + |r|, |s|)
  {
    var i := TextStart(s, 0);
    var e := TextEnd(s, i, |s|);
    var r := s[i..e];
    assert i + |r| == e;
    r
  }

  /** `line.split('=', 1)` of a line that contains `=`. */
  function SplitFirst(line: string, c: char): (kv: (string, string))
    requires c in line
    ensures kv.0 + [c] + kv.1 == line
    ensures c !in kv.0
  {
    var i := IndexOf(line, c);
    assert line[..i] + [c] + line[i + 1..] == line;
    (line[..i], line[i + 1..])
  }

  /** The key/value pairs of one section. */
  type Section = map<string, string>

  /** `current_section.get('Default') == '1'`. */
  predicate IsDefault(section: Section) {
    "Default" in section && section["Default"] == "1"
  }

  /** `current_section.get('Path')`. */
  function PathOf(section: Section): Option<string> {
    if "Path" in section then Some(section["Path"]) else None
  }

  predicate IsHeader(line: string) {
    StartsWith(Strip(line), "[")
  }

  /** The section after a non-header line: a line with `=` stores its stripped
      key and value, later ones overwriting earlier ones; other lines change
      nothing. */
  function AddLine(section: Section, line: string): Section {
    var t := Strip(line);
    if '=' in t then
      var kv := SplitFirst(t, '=');
      section[Strip(kv.0) := Strip(kv.1)]
    else section
  }

  /** A line with `=` is cut at its first `=`: the stripped text before it is
      the key, the stripped text after it the value, and only that key of the
      section changes. A line without `=` changes nothing. */
  lemma AddLineSplitsAtFirstEquals(section: Section, line: string)
    ensures '=' !in Strip(line) ==> AddLine(section, line) == section
    ensures '=' in Strip(line) ==>
      exists key, value :: Strip(line) == key + "=" + value && '=' !in key
        && AddLine(section, line) == section[Strip(key) := Strip(value)]
  {
    var t := Strip(line);
    if '=' in t {
      var kv := SplitFirst(t, '=');
      var key, value := kv.0, kv.1;
      assert t == key + "=" + value && '=' !in key
        && AddLine(section, line) == section[Strip(key) := Strip(value)];
    }
  }

  /** What the scan loop chooses when it starts at line `i` with the pairs
      `section` collected so far. */
  function Scan(lines: seq<string>, i: nat, section: Section): Option<string>
    requires i <= |lines|
    decreases |lines| - i
  {
    if i == |lines| then None
    else if IsHeader(lines[i]) then
      if IsDefault(section) then PathOf(section) else Scan(lines, i + 1, map[])
    else Scan(lines, i + 1, AddLine(section, lines[i]))
  }

  /** The sections a header line closes, in file order. The first one holds
      the pairs before the first header; the section after the last header is
      never closed. */
  function ClosedSections(lines: seq<string>, i: nat, section: Section): seq<Section>
    requires i <= |lines|
    decreases |lines| - i
  {
    if i == |lines| then []
    else if IsHeader(lines[i]) then [section] + ClosedSections(lines, i + 1, map[])
    else ClosedSections(lines, i + 1, AddLine(section, lines[i]))
  }

  /** The `Path` of the first default section (none when it has no `Path`). */
  function FirstDefault(sections: seq<Section>): Option<string> {
    if sections == [] then None
    else if IsDefault(sections[0]) then PathOf(sections[0])
    else FirstDefault(sections[1..])
  }

  /** The scan chooses the `Path` of the first closed default section. */
  lemma {:induction false} ScanIsFirstDefault(lines: seq<string>, i: nat, section: Section)
    requires i <= |lines|
    ensures Scan(lines, i, section) == FirstDefault(ClosedSections(lines, i, section))
    decreases |lines| - i
  {
    if i < |lines| {
      if IsHeader(lines[i]) {
        ScanIsFirstDefault(lines, i + 1, map[]);
        assert ([section] + ClosedSections(lines, i + 1, map[]))[1..] == ClosedSections(lines, i + 1, map[]);
      } else {
        ScanIsFirstDefault(lines, i + 1, AddLine(section, lines[i]));
      }
    }
  }

  /** The first default section wins; later ones are never looked at. */
  lemma {:induction false} FirstDefaultWins(sections: seq<Section>, k: nat)
    requires k < |sections| && IsDefault(sections[k])
    requires forall j :: 0 <= j < k ==> !IsDefault(sections[j])
    ensures FirstDefault(sections) == PathOf(sections[k])
  {
    if k > 0 {
      FirstDefaultWins(sections[1..], k - 1);
    }
  }

  /** A default section that no header follows is never chosen: with no header
      from line `i` on, the scan ends with nothing. */
  lemma {:induction false} UnclosedSectionIgnored(lines: seq<string>, i: nat, section: Section)
    requires i <= |lines|
    requires forall j :: i <= j < |lines| ==> !IsHeader(lines[j])
    ensures Scan(lines, i, section) == None
    decreases |lines| - i
  {
    if i < |lines| {
      UnclosedSectionIgnored(lines, i + 1, AddLine(section, lines[i]));
    }
  }

  /** `os.path.isabs` on a POSIX system. */
  predicate IsAbs(p: string) {
    StartsWith(p, "/")
  }

  /** `os.path.join(a, b)` on a POSIX system. */
  function PathJoin(a: string, b: string): string {
    if StartsWith(b, "/") then b
    else if a == [] || EndsWith(a, "/") then a + b
    else a + "/" + b
  }

  /** An absolute second part replaces the first; a relative one is put
      after the first, with a `/` between them exactly when the first is not
      empty and does not already end in `/`. Either way the joined path ends
      with its second part. */
  lemma PathJoinParts(a: string, b: string)
    ensures IsAbs(b) ==> PathJoin(a, b) == b
    ensures !IsAbs(b) && (a == [] || EndsWith(a, "/")) ==> PathJoin(a, b) == a + b
    ensures !IsAbs(b) && a != [] && !EndsWith(a, "/") ==> PathJoin(a, b) == a + "/" + b
    ensures EndsWith(PathJoin(a, b), b)
    ensures !IsAbs(b) ==> StartsWith(PathJoin(a, b), a)
    ensures !IsAbs(b) && a != [] ==> EndsWith(PathJoin(a, b)[..|PathJoin(a, b)| - |b|], "/")
  {
    var r := PathJoin(a, b);
    if IsAbs(b) {
      assert r[|r| - |b|..] == b;
    } else if a == [] || EndsWith(a, "/") {
      assert r == a + b;
      assert r[|r| - |b|..] == b;
      assert r[..|r| - |b|] == a;
    } else {
      assert r == (a + "/") + b;
      assert r[|r| - |b|..] == b;
      assert r[..|r| - |b|] == a + "/";
      assert r[..|a|] == a;
    }
  }

  /** From the chosen `Path` to the profile directory: empty or missing means
      none, an absolute path is kept, a relative one is joined onto the Mozilla
      directory. */
  function ResolveProfile(mozillaDir: string, chosen: Option<string>): (dir: Option<string>)
    ensures dir.Some? <==> chosen.Some? && chosen.value != ""
    ensures dir.Some? && IsAbs(chosen.value) ==> dir.value == chosen.value
    ensures dir.Some? && !IsAbs(chosen.value) && (mozillaDir == [] || EndsWith(mozillaDir, "/")) ==>
      dir.value == mozillaDir + chosen.value
    ensures dir.Some? && !IsAbs(chosen.value) && mozillaDir != [] && !EndsWith(mozillaDir, "/") ==>
      dir.value == mozillaDir + "/" + chosen.value
    ensures dir.Some? ==> dir.value != ""
  {
    match chosen
    case None => None
    case Some(p) =>
      if p == "" then None
      else if IsAbs(p) then Some(p)
      else
        Some(PathJoin(mozillaDir, p))
  }

  /** `get_profile_dir()` once the platform has given the Mozilla directory:
      `profilesIni` holds the lines of `profiles.ini`, `None` when the file does
      not exist. */
  function ProfileDir(mozillaDir: string, profilesIni: Option<seq<string>>): (dir: Option<string>)
    ensures profilesIni.None? ==> dir.None?
    ensures dir.Some? ==> dir.value != ""
  {
    match profilesIni
    case None => None
    case Some(lines) => ResolveProfile(mozillaDir, Scan(lines, 0, map[]))
  }

  method GetProfileDir(mozillaDir: string, profilesIni: Option<seq<string>>) returns (dir: Option<string>)
    ensures dir == ProfileDir(mozillaDir, profilesIni)
  {
    if profilesIni.None? {
      return None;
    }
    var lines := profilesIni.value;
    var defaultProfile: Option<string> := None;
    var currentSection: Section := map[];
    var i := 0;
    while i < |lines|
      invariant 0 <= i <= |lines|
      invariant defaultProfile == None
      invariant Scan(lines, i, currentSection) == Scan(lines, 0, map[])
    {
      var line := Strip(lines[i]);
      if StartsWith(line, "[") {
        assert IsHeader(lines[i]);
        if IsDefault(currentSection) {
          defaultProfile := PathOf(currentSection);
          break;
        }
        currentSection := map[];
      } else {
        assert !IsHeader(lines[i]);
        ghost var before := currentSection;
        if '=' in line {
          var kv := SplitFirst(line, '=');
          currentSection := currentSection[Strip(kv.0) := Strip(kv.1)];
        }
        assert currentSection == AddLine(before, lines[i]);
      }
      i := i + 1;
    }
    dir := ResolveProfile(mozillaDir, defaultProfile);
  }
}
