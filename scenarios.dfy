/** Two example inputs of `Update`, generic in the hand-written lines and the
    addresses: installing a block in a file that has none, and regenerating it in
    place after an address changed. */
module Scenarios {
  import opened Markers
  import opened Inventory
  import opened Formatter
  import opened Editor
  import opened UpdateFacts

  function Web(n: string, ip: string): Instance {
    Instance("i-" + n, "t2.micro", ip, "", "", [TagPair("Name", "web" + n)])
  }

  /** The line for one of the example instances at its private address. */
  lemma WebLine(n: string, ip: string)
    ensures FormatLine(ChooseAddress(Web(n, ip), ""), Web(n, ip), []) == ip + " web" + n + " # i-" + n + " t2.micro "
  {
    var i := Web(n, ip);
    assert Name(i) == "web" + n;
    assert PresentValues(i, []) == [] && SpaceJoin([]) == "";
    FormatLineLayout(ip, i, []);
  }

  /** The body for the two example instances, at their private addresses. */
  lemma WebBody(ip1: string, ip2: string)
    ensures Body([Web("1", ip1), Web("2", ip2)], "", [])
         == [ip1 + " web1 # i-1 t2.micro ", ip2 + " web2 # i-2 t2.micro "]
  {
    var b := Body([Web("1", ip1), Web("2", ip2)], "", []);
    WebLine("1", ip1);
    WebLine("2", ip2);
    assert |b| == 2;
    assert b[0] == ip1 + " web1 # i-1 t2.micro ";
    assert b[1] == ip2 + " web2 # i-2 t2.micro ";
  }

  /** Hand-written lines that are not comments are never taken for markers. */
  lemma HandLines(hand: seq<string>, name: string)
    requires forall line | line in hand :: line == "" || line[0] != '#'
    ensures Unmarked(hand, StartMarker(name), EndMarker(name))
  {
    forall line | line in hand ensures line != StartMarker(name) && line != EndMarker(name) {
      PlainLineIsNoMarker(line);
    }
  }

  /** A file of hand-written lines gets the block appended after a blank line. The
      zone column is printed even when empty, so each host line ends in a space. */
  lemma InstallBlock(hand: seq<string>, ip1: string, ip2: string)
    requires forall line | line in hand :: line == "" || line[0] != '#'
    ensures Updated(hand, false, [Web("1", ip1), Web("2", ip2)], "app", "", [])
         == Done(hand + ["", "# START EC2HOSTS - app #", ip1 + " web1 # i-1 t2.micro ",
                         ip2 + " web2 # i-2 t2.micro ", "# END EC2HOSTS - app #"])
  {
    var s, e := "# START EC2HOSTS - app #", "# END EC2HOSTS - app #";
    WebBody(ip1, ip2);
    assert StartMarker("app") == s && EndMarker("app") == e;
    HandLines(hand, "app");
    UpdateAppendsBlock(hand, [Web("1", ip1), Web("2", ip2)], "app", "", []);
  }

  /** A host line whose address does not begin with '#' does not begin with '#'. */
  lemma WebLineIsPlain(n: string, ip: string)
    requires ip == "" || ip[0] != '#'
    ensures var line := ip + " web" + n + " # i-" + n + " t2.micro ";
      line == "" || line[0] != '#'
  {
    var line := ip + " web" + n + " # i-" + n + " t2.micro ";
    assert line[0] == (if ip == "" then ' ' else ip[0]);
  }

  lemma BlockShape(pre: seq<string>, s: string, a: string, b: string, e: string, post: seq<string>)
    ensures pre + [s] + [a, b] + [e] + post == pre + [s, a, b, e] + post
  {
  }

  /** Running again with web1 at a new address rewrites that body line in place;
      the lines around the block stay and no marker is duplicated. */
  lemma RegenerateBlock(pre: seq<string>, post: seq<string>, old1: string, ip1: string, ip2: string)
    requires forall line | line in pre :: line == "" || line[0] != '#'
    requires forall line | line in post :: line == "" || line[0] != '#'
    requires old1 == "" || old1[0] != '#'
    requires ip2 == "" || ip2[0] != '#'
    ensures Updated(pre + ["# START EC2HOSTS - app #", old1 + " web1 # i-1 t2.micro ",
                           ip2 + " web2 # i-2 t2.micro ", "# END EC2HOSTS - app #"] + post,
                    false, [Web("1", ip1), Web("2", ip2)], "app", "", [])
         == Done(pre + ["# START EC2HOSTS - app #", ip1 + " web1 # i-1 t2.micro ",
                        ip2 + " web2 # i-2 t2.micro ", "# END EC2HOSTS - app #"] + post)
  {
    var s, e := "# START EC2HOSTS - app #", "# END EC2HOSTS - app #";
    var a, b := old1 + " web1 # i-1 t2.micro ", ip2 + " web2 # i-2 t2.micro ";
    var a' := ip1 + " web1 # i-1 t2.micro ";
    WebBody(ip1, ip2);
    assert StartMarker("app") == s && EndMarker("app") == e;
    HandLines(pre, "app");
    HandLines(post, "app");
    WebLineIsPlain("1", old1);
    WebLineIsPlain("2", ip2);
    HandLines([a, b], "app");
    UpdateReplacesBlock(pre, [a, b], post, [Web("1", ip1), Web("2", ip2)], "app", "", []);
    BlockShape(pre, s, a, b, e, post);
    BlockShape(pre, s, a', b, e, post);
  }
}
