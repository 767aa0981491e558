/** The record formatter: one instance rendered as one hosts-file line, and the
    per-instance choice between its public and private address. */
module Formatter {
  import opened Strings
  import opened Markers
  import opened Inventory

  /** The address written for `i`: the public one when a public pattern is set and
      the instance's own name contains it, the private one otherwise. */
  function ChooseAddress(i: Instance, public: string): string {
    if public != "" && Contains(Name(i), public) then i.publicIp else i.privateIp
  }

  /** The values of the requested tags that are present (non-empty), in the order
      they were requested; absent tags leave no column. */
  function PresentValues(i: Instance, tags: seq<string>): (r: seq<string>)
    ensures |r| <= |tags|
    ensures forall k | 0 <= k < |r| :: r[k] != ""
  {
    if tags == [] then []
    else
      var last := tags[|tags| - 1];
      var v := Tag(i, last);
      assert tags == tags[..|tags| - 1] + [last];
      PresentValues(i, tags[..|tags| - 1]) + (if v != "" then [v] else [])
  }

  /** A column is written for every requested tag that has a value, and every
      column is the value of a requested tag. */
  lemma {:induction false} PresentValuesMembers(i: Instance, tags: seq<string>)
    ensures forall t | t in tags && Tag(i, t) != "" :: Tag(i, t) in PresentValues(i, tags)
    ensures forall v | v in PresentValues(i, tags) :: exists t :: t in tags && v == Tag(i, t)
  {
    if tags != [] {
      var init := tags[..|tags| - 1];
      var last := tags[|tags| - 1];
      assert tags == init + [last];
      PresentValuesMembers(i, init);
    }
  }

  /** The columns of a longer tag list are those of its parts, in order. */
  lemma {:induction false} PresentValuesConcat(i: Instance, t1: seq<string>, t2: seq<string>)
    ensures PresentValues(i, t1 + t2) == PresentValues(i, t1) + PresentValues(i, t2)
    decreases |t2|
  {
    if t2 != [] {
      var init := t2[..|t2| - 1];
      assert (t1 + t2)[..|t1 + t2| - 1] == t1 + init;
      assert (t1 + t2)[|t1 + t2| - 1] == t2[|t2| - 1];
      PresentValuesConcat(i, t1, init);
    } else {
      assert t1 + t2 == t1;
    }
  }

  /** " " followed by each value: the "%s" fields added to the format for the tags. */
  function SpaceJoin(values: seq<string>): string {
    if values == [] then ""
    else SpaceJoin(values[..|values| - 1]) + " " + values[|values| - 1]
  }

  /** What `Fprintf(w, strings.Join(f, " ") + "\n", a...)` prints when `f` is
      "%s %s # %s %s %s" followed by one "%s" per argument beyond the fifth;
      the result is the line without its final newline. */
  function Columns(a: seq<string>): string
    requires |a| >= 5
  {
    a[0] + " " + a[1] + " # " + a[2] + " " + a[3] + " " + a[4] + SpaceJoin(a[5..])
  }

  /** The five arguments every line starts with. */
  function HeaderArgs(ip: string, i: Instance): seq<string> {
    [ip, Name(i), i.id, i.instanceType, i.zone]
  }

  /** The line `writeInstanceContent` prints for `i` at address `ip`. */
  function FormatLine(ip: string, i: Instance, tags: seq<string>): string {
    Columns(HeaderArgs(ip, i) + PresentValues(i, tags))
  }

  /** `writeInstanceContent`: collect the arguments, one more for each requested
      tag that has a value, then print them. */
  method WriteInstanceContent(ip: string, i: Instance, tags: seq<string>) returns (line: string)
    ensures line == FormatLine(ip, i, tags)
  {
    var a := [ip, Name(i), i.id, i.instanceType, i.zone];
    var n := 0;
    while n < |tags|
      invariant n <= |tags|
      invariant a == HeaderArgs(ip, i) + PresentValues(i, tags[..n])
    {
      var value := Tag(i, tags[n]);
      assert tags[..n + 1][..n] == tags[..n] && tags[..n + 1][n] == tags[n];
      if value != "" {
        a := a + [value];
      }
      n := n + 1;
    }
    assert tags[..n] == tags;
    line := Columns(a);
  }

  /** The layout of a line: address, name, "#", id, type and zone (always, so an
      empty zone leaves a trailing space), then one column per present tag. */
  lemma FormatLineLayout(ip: string, i: Instance, tags: seq<string>)
    ensures FormatLine(ip, i, tags)
      == ip + " " + Name(i) + " # " + i.id + " " + i.instanceType + " " + i.zone
         + SpaceJoin(PresentValues(i, tags))
    ensures PresentValues(i, tags) == [] ==>
      FormatLine(ip, i, tags) == ip + " " + Name(i) + " # " + i.id + " " + i.instanceType + " " + i.zone
  {
    assert (HeaderArgs(ip, i) + PresentValues(i, tags))[5..] == PresentValues(i, tags);
  }

  lemma {:induction false} SpaceJoinHasNoNewline(values: seq<string>)
    requires forall k | 0 <= k < |values| :: '\n' !in values[k]
    ensures '\n' !in SpaceJoin(values)
  {
    if values != [] {
      SpaceJoinHasNoNewline(values[..|values| - 1]);
    }
  }

  /** When no attribute holds a newline, the printed text is exactly one line. */
  lemma FormatLineIsOneLine(ip: string, i: Instance, tags: seq<string>)
    requires '\n' !in ip && '\n' !in Name(i) && '\n' !in i.id
    requires '\n' !in i.instanceType && '\n' !in i.zone
    requires forall t | t in tags :: '\n' !in Tag(i, t)
    ensures '\n' !in FormatLine(ip, i, tags)
  {
    var vs := PresentValues(i, tags);
    PresentValuesMembers(i, tags);
    assert forall k | 0 <= k < |vs| :: '\n' !in vs[k] by {
      forall k | 0 <= k < |vs| ensures '\n' !in vs[k] {
        assert vs[k] in vs;
      }
    }
    SpaceJoinHasNoNewline(vs);
    FormatLineLayout(ip, i, tags);
  }

  /** The text up to the first space. */
  function FirstWord(s: string): string {
    if s == [] || s[0] == ' ' then "" else [s[0]] + FirstWord(s[1..])
  }

  /** The first word of `w`, a space, then anything, is `w`. */
  lemma {:induction false} FirstWordOf(w: string, t: string)
    requires ' ' !in w
    ensures FirstWord(w + " " + t) == w
  {
    if w != [] {
      assert (w + " " + t)[1..] == w[1..] + " " + t;
      FirstWordOf(w[1..], t);
    }
  }

  /** The two words in front of the " # " that opens a host line's comment. */
  lemma TwoWords(a: string, b: string, rest: string)
    requires ' ' !in a && ' ' !in b
    ensures var line := a + " " + b + " # " + rest;
      FirstWord(line) == a && FirstWord(line[|a| + 1..]) == b
  {
    var line := a + " " + b + " # " + rest;
    var t := "# " + rest;
    assert line == a + " " + (b + " " + t);
    FirstWordOf(a, b + " " + t);
    assert line[|a| + 1..] == b + " " + t;
    FirstWordOf(b, t);
  }

  /** Concatenation regrouped to the right after its first part. */
  lemma Regroup(p: string, a: string, b: string, c: string, d: string, e: string, f: string)
    ensures p + a + b + c + d + e + f == p + (a + b + c + d + e + f)
  {
  }

  /** A reader splitting the line at its first spaces gets back the address and
      the name, provided neither holds a space. */
  lemma FormatLineFields(ip: string, i: Instance, tags: seq<string>)
    requires ' ' !in ip && ' ' !in Name(i)
    ensures var line := FormatLine(ip, i, tags);
      FirstWord(line) == ip && FirstWord(line[|ip| + 1..]) == Name(i)
  {
    var head := ip + " " + Name(i) + " # ";
    var sj := SpaceJoin(PresentValues(i, tags));
    FormatLineLayout(ip, i, tags);
    Regroup(head, i.id, " ", i.instanceType, " ", i.zone, sj);
    TwoWords(ip, Name(i), i.id + " " + i.instanceType + " " + i.zone + sj);
  }

  /** Every instance that passes the filter has a name without spaces. */
  lemma KeptNameHasNoSpace(i: Instance, exclude: string)
    requires Keep(i, exclude)
    ensures ' ' !in Name(i) && '\n' !in Name(i) && '#' !in Name(i)
  {
  }

  /** A line whose address is empty or does not start with '#' does not start
      with '#' either, so it is no marker of any name. */
  lemma FormatLineIsNoMarker(ip: string, i: Instance, tags: seq<string>)
    requires ip == "" || ip[0] != '#'
    ensures forall n :: FormatLine(ip, i, tags) != StartMarker(n) && FormatLine(ip, i, tags) != EndMarker(n)
    ensures !IsAnyStart(FormatLine(ip, i, tags)) && !IsAnyEnd(FormatLine(ip, i, tags))
  {
    var line := FormatLine(ip, i, tags);
    FormatLineLayout(ip, i, tags);
    assert line[0] == if ip == "" then ' ' else ip[0];
    PlainLineIsNoMarker(line);
  }
}
