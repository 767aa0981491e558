/** The marker grammar: the literal start/end lines of a named block, the
    patterns that recognise a marker of any name, and the host-name character
    class used to filter instances. */
module Markers {

  const StartPrefix: string := "# START EC2HOSTS - "
  const EndPrefix: string := "# END EC2HOSTS - "
  const Suffix: string := " #"

  /** The line that opens the block called `name`. */
  function StartMarker(name: string): string {
    StartPrefix + name + Suffix
  }

  /** The line that closes the block called `name`. */
  function EndMarker(name: string): string {
    EndPrefix + name + Suffix
  }

  /** `^<prefix>.+ #$` in Go's regexp syntax: the whole line is the prefix, at least
      one character other than a newline, and the suffix " #". */
  predicate InEnvelope(prefix: string, line: string) {
    |prefix| + 1 + |Suffix| <= |line|
    && line[..|prefix|] == prefix
    && line[|line| - |Suffix|..] == Suffix
    && forall k | |prefix| <= k < |line| - |Suffix| :: line[k] != '\n'
  }

  /** `StartMarkerRe`: the start marker of a block of any name. */
  predicate IsAnyStart(line: string) {
    InEnvelope(StartPrefix, line)
  }

  /** `EndMarkerRe`: the end marker of a block of any name. */
  predicate IsAnyEnd(line: string) {
    InEnvelope(EndPrefix, line)
  }

  /** The name a recognised marker carries: the text between prefix and suffix. */
  function EnvelopeName(prefix: string, line: string): string
    requires InEnvelope(prefix, line)
  {
    line[|prefix|..|line| - |Suffix|]
  }

  predicate IsHostChar(c: char) {
    ('A' <= c <= 'Z') || ('a' <= c <= 'z') || ('0' <= c <= '9') || c == '-'
  }

  /** `HostRe`, `^[A-Za-z0-9-]+$`: a non-empty run of letters, digits and dashes. */
  predicate IsHostName(s: string) {
    |s| > 0 && forall k | 0 <= k < |s| :: IsHostChar(s[k])
  }

  lemma {:induction false} EnvelopeOfLiteral(prefix: string, name: string)
    ensures InEnvelope(prefix, prefix + name + Suffix) <==> name != [] && '\n' !in name
  {
    var line := prefix + name + Suffix;
    assert line[..|prefix|] == prefix;
    assert line[|line| - |Suffix|..] == Suffix;
    assert forall k | |prefix| <= k < |line| - |Suffix| :: line[k] == name[k - |prefix|];
    if '\n' in name {
      var j :| 0 <= j < |name| && name[j] == '\n';
      assert line[|prefix| + j] == '\n';
    }
  }

  /** The any-name patterns accept the literal marker of `name` exactly when the
      name is non-empty and holds no newline: `.+` refuses the empty name. */
  lemma StartMarkerMatchesAny(name: string)
    ensures IsAnyStart(StartMarker(name)) <==> name != [] && '\n' !in name
  {
    EnvelopeOfLiteral(StartPrefix, name);
  }

  lemma EndMarkerMatchesAny(name: string)
    ensures IsAnyEnd(EndMarker(name)) <==> name != [] && '\n' !in name
  {
    EnvelopeOfLiteral(EndPrefix, name);
  }

  /** Conversely, every line the any-name patterns accept is the literal marker of
      the name it carries. */
  lemma {:induction false} AnyStartIsStartMarker(line: string)
    requires IsAnyStart(line)
    ensures var n := EnvelopeName(StartPrefix, line);
      n != [] && '\n' !in n && StartMarker(n) == line
  {
    var n := EnvelopeName(StartPrefix, line);
    assert line == line[..|StartPrefix|] + n + line[|line| - |Suffix|..];
    assert forall j | 0 <= j < |n| :: n[j] == line[|StartPrefix| + j];
  }

  lemma {:induction false} AnyEndIsEndMarker(line: string)
    requires IsAnyEnd(line)
    ensures var n := EnvelopeName(EndPrefix, line);
      n != [] && '\n' !in n && EndMarker(n) == line
  {
    var n := EnvelopeName(EndPrefix, line);
    assert line == line[..|EndPrefix|] + n + line[|line| - |Suffix|..];
    assert forall j | 0 <= j < |n| :: n[j] == line[|EndPrefix| + j];
  }

  /** A marker determines its block's name. */
  lemma {:induction false} MarkersAreInjective(a: string, b: string)
    ensures StartMarker(a) == StartMarker(b) ==> a == b
    ensures EndMarker(a) == EndMarker(b) ==> a == b
  {
    if StartMarker(a) == StartMarker(b) {
      assert a == StartMarker(a)[|StartPrefix|..|StartMarker(a)| - |Suffix|];
    }
    if EndMarker(a) == EndMarker(b) {
      assert a == EndMarker(a)[|EndPrefix|..|EndMarker(a)| - |Suffix|];
    }
  }

  /** No line is both a start and an end marker, whatever the names. */
  lemma StartIsNeverEnd(a: string, b: string, line: string)
    ensures StartMarker(a) != EndMarker(b)
    ensures !IsAnyEnd(StartMarker(a)) && !IsAnyStart(EndMarker(b))
    ensures !(IsAnyStart(line) && IsAnyEnd(line))
  {
    assert StartMarker(a)[2] == 'S';
    assert EndMarker(b)[2] == 'E';
    if |StartMarker(a)| >= |EndPrefix| {
      assert StartMarker(a)[..|EndPrefix|][2] == 'S';
    }
    if |EndMarker(b)| >= |StartPrefix| {
      assert EndMarker(b)[..|StartPrefix|][2] == 'E';
    }
    if IsAnyStart(line) {
      assert line[..|StartPrefix|][2] == 'S';
    }
  }

  /** A line that does not begin with '#' is no marker of any kind. */
  lemma PlainLineIsNoMarker(line: string)
    requires line == [] || line[0] != '#'
    ensures forall n :: line != StartMarker(n) && line != EndMarker(n)
    ensures !IsAnyStart(line) && !IsAnyEnd(line)
  {
    forall n ensures line != StartMarker(n) && line != EndMarker(n) {
      assert StartMarker(n)[0] == '#' && EndMarker(n)[0] == '#';
    }
    if |line| >= |StartPrefix| {
      assert line[..|StartPrefix|][0] == line[0];
    }
    if |line| >= |EndPrefix| {
      assert line[..|EndPrefix|][0] == line[0];
    }
  }

  /** The empty line written before an appended block is not a marker. */
  lemma EmptyLineIsNoMarker()
    ensures forall n :: "" != StartMarker(n) && "" != EndMarker(n)
    ensures !IsAnyStart("") && !IsAnyEnd("")
  {
    PlainLineIsNoMarker("");
  }
}
