/** What `Update` does, stated case by case over the shape of the input, and the
    properties that follow: it copies everything outside its block, leaves blocks
    of other names alone, and reproduces its own output when run again. */
module UpdateFacts {
  import opened Markers
  import opened Inventory
  import opened Formatter
  import opened Editor

  /** Neither marker of the block is among `lines`. */
  predicate Unmarked(lines: seq<string>, start: string, end: string) {
    start !in lines && end !in lines
  }

  /** What the scan writes of ordinary lines read in `state`. */
  function Copied(state: State, lines: seq<string>): seq<string> {
    if state == Before || state == After then lines else []
  }

  /** Ordinary lines move the scan along without changing its state: they are
      copied before and after the block and dropped inside it. */
  lemma {:induction false} ScanPlainLines(state: State, acc: seq<string>, pre: seq<string>, rest: seq<string>,
                                          readFails: bool, start: string, end: string, body: seq<string>)
    requires Unmarked(pre, start, end)
    ensures UpdateScan(state, acc, pre + rest, readFails, start, end, body)
         == UpdateScan(state, acc + Copied(state, pre), rest, readFails, start, end, body)
    decreases |pre|
  {
    if pre == [] {
      assert pre + rest == rest && acc + Copied(state, pre) == acc;
    } else {
      assert (pre + rest)[0] == pre[0] && (pre + rest)[1..] == pre[1..] + rest;
      assert pre[0] in pre && pre[1..] <= pre[1..];
      assert acc + [] == acc;
      ScanPlainLines(state, acc + Copied(state, [pre[0]]), pre[1..], rest, readFails, start, end, body);
      assert acc + Copied(state, [pre[0]]) + Copied(state, pre[1..]) == acc + Copied(state, pre);
    }
  }

  /** One marker line read in `state`: the transition of the scan's state machine. */
  lemma ScanMarker(state: State, acc: seq<string>, line: string, rest: seq<string>,
                   readFails: bool, start: string, end: string, body: seq<string>)
    requires line == start || line == end
    ensures UpdateScan(state, acc, [line] + rest, readFails, start, end, body)
         == if line == start then
              if state == Before then UpdateScan(Inside, acc + [start] + body, rest, readFails, start, end, body)
              else Failed(acc, InvalidStartMarker)
            else
              if state == Inside then UpdateScan(After, acc + [end], rest, readFails, start, end, body)
              else Failed(acc, InvalidEndMarker)
  {
    assert ([line] + rest)[0] == line && ([line] + rest)[1..] == rest;
  }

  /** `p + [s] + a + [e] + b + [x] + r`, grouped from the right. */
  lemma GroupRight(p: seq<string>, s: string, a: seq<string>, e: string, b: seq<string>, x: string, r: seq<string>)
    ensures p + [s] + a + [e] + b + [x] + r == p + ([s] + (a + ([e] + (b + ([x] + r)))))
  {
  }

  /** A file without the block gets it appended after one empty line; every
      line of the file is kept, in order. */
  lemma UpdateAppendsBlock(lines: seq<string>, instances: seq<Instance>, name: string, public: string, tags: seq<string>)
    requires Unmarked(lines, StartMarker(name), EndMarker(name))
    ensures Updated(lines, false, instances, name, public, tags)
         == Done(lines + ["", StartMarker(name)] + Body(instances, public, tags) + [EndMarker(name)])
  {
    var body := Body(instances, public, tags);
    assert lines + [] == lines;
    ScanPlainLines(Before, [], lines, [], false, StartMarker(name), EndMarker(name), body);
  }

  /** A file with one well-formed block keeps every line before and after it and
      both markers; the stale body is replaced by the regenerated one. */
  lemma UpdateReplacesBlock(pre: seq<string>, stale: seq<string>, post: seq<string>,
                            instances: seq<Instance>, name: string, public: string, tags: seq<string>)
    requires Unmarked(pre, StartMarker(name), EndMarker(name))
    requires Unmarked(stale, StartMarker(name), EndMarker(name))
    requires Unmarked(post, StartMarker(name), EndMarker(name))
    ensures Updated(pre + [StartMarker(name)] + stale + [EndMarker(name)] + post, false, instances, name, public, tags)
         == Done(pre + [StartMarker(name)] + Body(instances, public, tags) + [EndMarker(name)] + post)
  {
    var s, e, body := StartMarker(name), EndMarker(name), Body(instances, public, tags);
    StartIsNeverEnd(name, name, "");
    var acc := pre + [s] + body;
    assert pre + [s] + stale + [e] + post == pre + ([s] + (stale + ([e] + post)));
    ScanPlainLines(Before, [], pre, [s] + (stale + ([e] + post)), false, s, e, body);
    assert [] + pre == pre;
    ScanPlainLines(Inside, acc, stale, [e] + post, false, s, e, body);
    assert acc + [] == acc;
    assert post + [] == post;
    ScanPlainLines(After, acc + [e], post, [], false, s, e, body);
  }

  /** A start marker with no end is not an error: the block is written without
      its end marker and the rest of the file is dropped. */
  lemma UpdateUnterminatedBlock(pre: seq<string>, rest: seq<string>,
                                instances: seq<Instance>, name: string, public: string, tags: seq<string>)
    requires Unmarked(pre, StartMarker(name), EndMarker(name))
    requires Unmarked(rest, StartMarker(name), EndMarker(name))
    ensures Updated(pre + [StartMarker(name)] + rest, false, instances, name, public, tags)
         == Done(pre + [StartMarker(name)] + Body(instances, public, tags))
  {
    var s, e, body := StartMarker(name), EndMarker(name), Body(instances, public, tags);
    assert pre + [s] + rest == pre + ([s] + rest);
    ScanPlainLines(Before, [], pre, [s] + rest, false, s, e, body);
    assert [] + pre == pre;
    assert rest + [] == rest;
    StartIsNeverEnd(name, name, "");
    ScanPlainLines(Inside, pre + [s] + body, rest, [], false, s, e, body);
  }

  /** An end marker before any start marker fails with "Invalid end marker",
      returning the lines copied so far. */
  lemma UpdateStrayEnd(pre: seq<string>, rest: seq<string>, readFails: bool,
                       instances: seq<Instance>, name: string, public: string, tags: seq<string>)
    requires Unmarked(pre, StartMarker(name), EndMarker(name))
    ensures Updated(pre + [EndMarker(name)] + rest, readFails, instances, name, public, tags)
         == Failed(pre, InvalidEndMarker)
  {
    var s, e, body := StartMarker(name), EndMarker(name), Body(instances, public, tags);
    assert pre + [e] + rest == pre + ([e] + rest);
    ScanPlainLines(Before, [], pre, [e] + rest, readFails, s, e, body);
    assert [] + pre == pre;
    StartIsNeverEnd(name, name, "");
  }

  /** A second start marker inside the block fails with "Invalid start marker",
      returning the lines before it and the regenerated body. */
  lemma UpdateStartInsideBlock(pre: seq<string>, stale: seq<string>, rest: seq<string>, readFails: bool,
                               instances: seq<Instance>, name: string, public: string, tags: seq<string>)
    requires Unmarked(pre, StartMarker(name), EndMarker(name))
    requires Unmarked(stale, StartMarker(name), EndMarker(name))
    ensures Updated(pre + [StartMarker(name)] + stale + [StartMarker(name)] + rest, readFails, instances, name, public, tags)
         == Failed(pre + [StartMarker(name)] + Body(instances, public, tags), InvalidStartMarker)
  {
    var s, e, body := StartMarker(name), EndMarker(name), Body(instances, public, tags);
    var acc := pre + [s] + body;
    assert pre + [s] + stale + [s] + rest == pre + ([s] + (stale + ([s] + rest)));
    ScanPlainLines(Before, [], pre, [s] + (stale + ([s] + rest)), readFails, s, e, body);
    assert [] + pre == pre;
    ScanPlainLines(Inside, acc, stale, [s] + rest, readFails, s, e, body);
    assert acc + [] == acc;
  }

  /** `Update` handles one block only: a start marker after a completed block
      fails with "Invalid start marker". */
  lemma UpdateSecondStart(pre: seq<string>, stale: seq<string>, mid: seq<string>, rest: seq<string>, readFails: bool,
                          instances: seq<Instance>, name: string, public: string, tags: seq<string>)
    requires Unmarked(pre, StartMarker(name), EndMarker(name))
    requires Unmarked(stale, StartMarker(name), EndMarker(name))
    requires Unmarked(mid, StartMarker(name), EndMarker(name))
    ensures Updated(pre + [StartMarker(name)] + stale + [EndMarker(name)] + mid + [StartMarker(name)] + rest,
                    readFails, instances, name, public, tags)
         == Failed(pre + [StartMarker(name)] + Body(instances, public, tags) + [EndMarker(name)] + mid, InvalidStartMarker)
  {
    var s, e, body := StartMarker(name), EndMarker(name), Body(instances, public, tags);
    StartIsNeverEnd(name, name, "");
    var acc := pre + [s] + body;
    GroupRight(pre, s, stale, e, mid, s, rest);
    ScanPlainLines(Before, [], pre, [s] + (stale + ([e] + (mid + ([s] + rest)))), readFails, s, e, body);
    assert [] + pre == pre;
    ScanMarker(Before, pre, s, stale + ([e] + (mid + ([s] + rest))), readFails, s, e, body);
    ScanPlainLines(Inside, acc, stale, [e] + (mid + ([s] + rest)), readFails, s, e, body);
    assert acc + [] == acc;
    ScanMarker(Inside, acc, e, mid + ([s] + rest), readFails, s, e, body);
    ScanPlainLines(After, acc + [e], mid, [s] + rest, readFails, s, e, body);
    ScanMarker(After, acc + [e] + mid, s, rest, readFails, s, e, body);
  }

  /** An end marker after a completed block fails with "Invalid end marker". */
  lemma UpdateSecondEnd(pre: seq<string>, stale: seq<string>, mid: seq<string>, rest: seq<string>, readFails: bool,
                        instances: seq<Instance>, name: string, public: string, tags: seq<string>)
    requires Unmarked(pre, StartMarker(name), EndMarker(name))
    requires Unmarked(stale, StartMarker(name), EndMarker(name))
    requires Unmarked(mid, StartMarker(name), EndMarker(name))
    ensures Updated(pre + [StartMarker(name)] + stale + [EndMarker(name)] + mid + [EndMarker(name)] + rest,
                    readFails, instances, name, public, tags)
         == Failed(pre + [StartMarker(name)] + Body(instances, public, tags) + [EndMarker(name)] + mid, InvalidEndMarker)
  {
    var s, e, body := StartMarker(name), EndMarker(name), Body(instances, public, tags);
    StartIsNeverEnd(name, name, "");
    var acc := pre + [s] + body;
    GroupRight(pre, s, stale, e, mid, e, rest);
    ScanPlainLines(Before, [], pre, [s] + (stale + ([e] + (mid + ([e] + rest)))), readFails, s, e, body);
    assert [] + pre == pre;
    ScanMarker(Before, pre, s, stale + ([e] + (mid + ([e] + rest))), readFails, s, e, body);
    ScanPlainLines(Inside, acc, stale, [e] + (mid + ([e] + rest)), readFails, s, e, body);
    assert acc + [] == acc;
    ScanMarker(Inside, acc, e, mid + ([e] + rest), readFails, s, e, body);
    ScanPlainLines(After, acc + [e], mid, [e] + rest, readFails, s, e, body);
    ScanMarker(After, acc + [e] + mid, e, rest, readFails, s, e, body);
  }

  lemma {:induction false} ScanFailsOnReadFailure(state: State, acc: seq<string>, rest: seq<string>,
                                                  start: string, end: string, body: seq<string>)
    ensures UpdateScan(state, acc, rest, true, start, end, body).Failed?
    decreases |rest|
  {
    if rest != [] {
      var line := rest[0];
      if line == start {
        if state == Before {
          ScanFailsOnReadFailure(Inside, acc + [start] + body, rest[1..], start, end, body);
        }
      } else if line == end {
        if state == Inside {
          ScanFailsOnReadFailure(After, acc + [end], rest[1..], start, end, body);
        }
      } else if state == Before || state == After {
        ScanFailsOnReadFailure(state, acc + [line], rest[1..], start, end, body);
      } else {
        ScanFailsOnReadFailure(state, acc, rest[1..], start, end, body);
      }
    }
  }

  /** A read error always fails the update; on a file without the block nothing
      is appended before the error is returned. */
  lemma UpdateReadFailure(lines: seq<string>, instances: seq<Instance>, name: string, public: string, tags: seq<string>)
    ensures Updated(lines, true, instances, name, public, tags).Failed?
    ensures Unmarked(lines, StartMarker(name), EndMarker(name)) ==>
      Updated(lines, true, instances, name, public, tags) == Failed(lines, ReadFailure)
  {
    var s, e, body := StartMarker(name), EndMarker(name), Body(instances, public, tags);
    ScanFailsOnReadFailure(Before, [], lines, s, e, body);
    if Unmarked(lines, s, e) {
      assert lines + [] == lines;
      ScanPlainLines(Before, [], lines, [], true, s, e, body);
    }
  }

  // ----- Idempotence -----

  /** After the block, a successful scan has met no marker and copied the rest. */
  lemma {:induction false} SucceedsAfter(acc: seq<string>, rest: seq<string>, out: seq<string>,
                                         start: string, end: string, body: seq<string>)
    requires UpdateScan(After, acc, rest, false, start, end, body) == Done(out)
    ensures Unmarked(rest, start, end) && out == acc + rest
    decreases |rest|
  {
    if rest == [] {
      assert acc + rest == acc;
    } else if rest[0] != start && rest[0] != end {
      SucceedsAfter(acc + [rest[0]], rest[1..], out, start, end, body);
      assert rest == [rest[0]] + rest[1..];
      assert acc + [rest[0]] + rest[1..] == acc + rest;
    }
  }

  /** Inside the block, a successful scan either runs off the end (the lines
      written stay as they are) or meets the end marker and copies an unmarked
      rest. */
  lemma {:induction false} SucceedsInside(acc: seq<string>, rest: seq<string>, out: seq<string>,
                                          start: string, end: string, body: seq<string>)
    requires UpdateScan(Inside, acc, rest, false, start, end, body) == Done(out)
    requires start != end
    ensures out == acc
         || (|acc| < |out| && out[..|acc| + 1] == acc + [end] && Unmarked(out[|acc| + 1..], start, end))
    decreases |rest|
  {
    if rest != [] {
      if rest[0] == end {
        SucceedsAfter(acc + [end], rest[1..], out, start, end, body);
        assert out[..|acc| + 1] == acc + [end];
        assert out[|acc| + 1..] == rest[1..];
      } else if rest[0] != start {
        SucceedsInside(acc, rest[1..], out, start, end, body);
      }
    }
  }

  /** A block appended at the end of input is read back as one well-formed block. */
  lemma RescanAppended(acc: seq<string>, start: string, end: string, body: seq<string>)
    requires Unmarked(acc, start, end) && Unmarked(body, start, end)
    requires start != end && start != "" && end != ""
    ensures var out := acc + ["", start] + body + [end];
      UpdateScan(Before, [], out, false, start, end, body) == Done(out)
  {
    var out := acc + ["", start] + body + [end];
    var acc' := acc + [""] + [start] + body;
    assert out == (acc + [""]) + ([start] + (body + [end]));
    ScanPlainLines(Before, [], acc + [""], [start] + (body + [end]), false, start, end, body);
    assert [] + (acc + [""]) == acc + [""];
    ScanPlainLines(Inside, acc', body, [end], false, start, end, body);
    assert acc' + [] == acc';
    assert acc' + [end] == out;
  }

  /** A block regenerated in place is read back as the same block. */
  lemma RescanReplaced(acc: seq<string>, tail: seq<string>, start: string, end: string, body: seq<string>)
    requires Unmarked(acc, start, end) && Unmarked(body, start, end)
    requires start != end
    requires tail == [] || (tail[0] == end && Unmarked(tail[1..], start, end))
    ensures var out := acc + [start] + body + tail;
      UpdateScan(Before, [], out, false, start, end, body) == Done(out)
  {
    var out := acc + [start] + body + tail;
    var acc' := acc + [start] + body;
    assert out == acc + ([start] + (body + tail));
    ScanPlainLines(Before, [], acc, [start] + (body + tail), false, start, end, body);
    assert [] + acc == acc;
    ScanPlainLines(Inside, acc', body, tail, false, start, end, body);
    assert acc' + [] == acc';
    if tail != [] {
      var post := tail[1..];
      assert tail == [end] + post;
      assert post + [] == post;
      ScanPlainLines(After, acc' + [end], post, [], false, start, end, body);
      assert acc' + [end] + post == out;
    }
  }

  /** Running the scan over what a successful scan wrote writes the same lines
      again, given an unmarked prefix and a body without markers. */
  lemma {:induction false} RescanReproduces(acc: seq<string>, rest: seq<string>, out: seq<string>,
                                            start: string, end: string, body: seq<string>)
    requires UpdateScan(Before, acc, rest, false, start, end, body) == Done(out)
    requires Unmarked(acc, start, end) && Unmarked(body, start, end)
    requires start != end && start != "" && end != ""
    ensures UpdateScan(Before, [], out, false, start, end, body) == Done(out)
    decreases |rest|
  {
    if rest == [] {
      RescanAppended(acc, start, end, body);
    } else if rest[0] == start {
      var acc' := acc + [start] + body;
      SucceedsInside(acc', rest[1..], out, start, end, body);
      var tail := out[|acc'|..];
      assert out == acc' + tail;
      if out != acc' {
        assert tail[0] == end && tail[1..] == out[|acc'| + 1..];
      }
      RescanReplaced(acc, tail, start, end, body);
    } else if rest[0] != end {
      RescanReproduces(acc + [rest[0]], rest[1..], out, start, end, body);
    }
  }

  /** Idempotence: when the regenerated body holds no marker of the block, running
      `Update` again on its own output, with the same instances, returns that
      output unchanged. */
  lemma UpdateIsIdempotent(lines: seq<string>, out: seq<string>,
                           instances: seq<Instance>, name: string, public: string, tags: seq<string>)
    requires Updated(lines, false, instances, name, public, tags) == Done(out)
    requires Unmarked(Body(instances, public, tags), StartMarker(name), EndMarker(name))
    ensures Updated(out, false, instances, name, public, tags) == Done(out)
  {
    StartIsNeverEnd(name, name, "");
    EmptyLineIsNoMarker();
    RescanReproduces([], lines, out, StartMarker(name), EndMarker(name), Body(instances, public, tags));
  }

  /** The body holds no marker of any name when every chosen address is empty or
      does not start with '#' (an IP address never does). */
  lemma BodyIsUnmarked(instances: seq<Instance>, public: string, tags: seq<string>)
    requires forall i | i in instances :: ChooseAddress(i, public) == "" || ChooseAddress(i, public)[0] != '#'
    ensures forall n :: Unmarked(Body(instances, public, tags), StartMarker(n), EndMarker(n))
    ensures forall line | line in Body(instances, public, tags) :: !IsAnyStart(line) && !IsAnyEnd(line)
  {
    var body := Body(instances, public, tags);
    forall k | 0 <= k < |body|
      ensures (forall n :: body[k] != StartMarker(n) && body[k] != EndMarker(n))
      ensures !IsAnyStart(body[k]) && !IsAnyEnd(body[k])
    {
      var i := instances[k];
      assert i in instances;
      FormatLineIsNoMarker(ChooseAddress(i, public), i, tags);
    }
  }

  /** The address that heads each body line, whether the block is regenerated or
      appended: the public address exactly when a public pattern is set and that
      instance's own name contains it, the private address otherwise. */
  lemma BodyLineAddress(instances: seq<Instance>, public: string, tags: seq<string>, k: nat)
    requires k < |instances|
    requires ' ' !in instances[k].publicIp && ' ' !in instances[k].privateIp && ' ' !in Name(instances[k])
    ensures |Body(instances, public, tags)| == |instances|
    ensures FirstWord(Body(instances, public, tags)[k])
         == if public != "" && Strings.Contains(Name(instances[k]), public) then instances[k].publicIp
            else instances[k].privateIp
  {
    var i := instances[k];
    FormatLineFields(ChooseAddress(i, public), i, tags);
  }

  // ----- Isolation from other blocks -----

  /** The markers of another block are ordinary lines to `Update`. */
  lemma OtherMarkersArePlain(a: string, b: string)
    requires a != b
    ensures Unmarked([StartMarker(b), EndMarker(b)], StartMarker(a), EndMarker(a))
  {
    MarkersAreInjective(a, b);
    StartIsNeverEnd(a, b, "");
    StartIsNeverEnd(b, a, "");
  }

  /** Updating block `a` leaves a block `b` that follows it, markers and body,
      exactly as it was. */
  lemma UpdateKeepsLaterBlock(a: string, b: string, pre: seq<string>, stale: seq<string>, mid: seq<string>,
                              staleB: seq<string>, post: seq<string>,
                              instances: seq<Instance>, public: string, tags: seq<string>)
    requires a != b
    requires Unmarked(pre, StartMarker(a), EndMarker(a)) && Unmarked(stale, StartMarker(a), EndMarker(a))
    requires Unmarked(mid, StartMarker(a), EndMarker(a)) && Unmarked(staleB, StartMarker(a), EndMarker(a))
    requires Unmarked(post, StartMarker(a), EndMarker(a))
    ensures Updated(pre + [StartMarker(a)] + stale + [EndMarker(a)] + mid + [StartMarker(b)] + staleB + [EndMarker(b)] + post,
                    false, instances, a, public, tags)
         == Done(pre + [StartMarker(a)] + Body(instances, public, tags) + [EndMarker(a)]
                 + mid + [StartMarker(b)] + staleB + [EndMarker(b)] + post)
  {
    OtherMarkersArePlain(a, b);
    var sa, ea, sb, eb := StartMarker(a), EndMarker(a), StartMarker(b), EndMarker(b);
    var tail := mid + [sb] + staleB + [eb] + post;
    assert Unmarked(tail, sa, ea);
    UpdateReplacesBlock(pre, stale, tail, instances, a, public, tags);
    assert pre + [sa] + stale + [ea] + mid + [sb] + staleB + [eb] + post == pre + [sa] + stale + [ea] + tail;
    assert pre + [sa] + Body(instances, public, tags) + [ea] + tail
        == pre + [sa] + Body(instances, public, tags) + [ea] + mid + [sb] + staleB + [eb] + post;
  }

  /** On a file with a block `b` but none called `a`, updating `a` appends the new
      block after the whole file, `b`'s block included. */
  lemma UpdateAppendsBesideOtherBlock(a: string, b: string, pre: seq<string>, staleB: seq<string>, post: seq<string>,
                                      instances: seq<Instance>, public: string, tags: seq<string>)
    requires a != b
    requires Unmarked(pre, StartMarker(a), EndMarker(a)) && Unmarked(staleB, StartMarker(a), EndMarker(a))
    requires Unmarked(post, StartMarker(a), EndMarker(a))
    ensures var lines := pre + [StartMarker(b)] + staleB + [EndMarker(b)] + post;
      Updated(lines, false, instances, a, public, tags)
        == Done(lines + ["", StartMarker(a)] + Body(instances, public, tags) + [EndMarker(a)])
  {
    OtherMarkersArePlain(a, b);
    var lines := pre + [StartMarker(b)] + staleB + [EndMarker(b)] + post;
    assert Unmarked(lines, StartMarker(a), EndMarker(a));
    UpdateAppendsBlock(lines, instances, a, public, tags);
  }
}
