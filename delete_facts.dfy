/** What `Delete` and `DeleteAll` do, stated over the shape of the input, and how
    they undo `Update`. Both run the same strip scan; they differ only in which
    lines they take for markers (a `Scope`). */
module DeleteFacts {
  import opened Markers
  import opened Inventory
  import opened Formatter
  import opened Editor
  import opened UpdateFacts

  /** No line of `lines` is a marker the scope recognises. */
  predicate NoMarkers(scope: Scope, lines: seq<string>) {
    forall k | 0 <= k < |lines| :: !IsStart(scope, lines[k]) && !IsEnd(scope, lines[k])
  }

  /** `outcome` with `prefix` written before its buffer. */
  function Prepend(prefix: seq<string>, outcome: Outcome): Outcome {
    match outcome
    case Done(c) => Done(prefix + c)
    case Failed(c, e) => Failed(prefix + c, e)
  }

  /** For one name, "no marker" is "neither of its two markers". */
  lemma NoMarkersNamed(name: string, lines: seq<string>)
    ensures NoMarkers(Named(name), lines) <==> Unmarked(lines, StartMarker(name), EndMarker(name))
  {
    if !NoMarkers(Named(name), lines) {
      var k :| 0 <= k < |lines| && (IsStart(Named(name), lines[k]) || IsEnd(Named(name), lines[k]));
      assert lines[k] in lines;
    }
  }

  /** The buffer written so far is kept in front of whatever the rest writes. */
  lemma {:induction false} StripKeepsWritten(scope: Scope, state: State, acc: seq<string>, rest: seq<string>, readFails: bool)
    ensures StripScan(scope, state, acc, rest, readFails) == Prepend(acc, StripScan(scope, state, [], rest, readFails))
    decreases |rest|
  {
    assert acc + [] == acc;
    if rest != [] {
      var line := rest[0];
      if IsStart(scope, line) {
        if state == Outside {
          StripKeepsWritten(scope, Inside, acc, rest[1..], readFails);
        }
      } else if IsEnd(scope, line) {
        if state == Inside {
          StripKeepsWritten(scope, Outside, acc, rest[1..], readFails);
        }
      } else if state == Outside {
        assert [] + [line] == [line];
        StripKeepsWritten(scope, state, acc + [line], rest[1..], readFails);
        StripKeepsWritten(scope, state, [line], rest[1..], readFails);
        match StripScan(scope, state, [], rest[1..], readFails)
        case Done(c) => assert acc + [line] + c == acc + ([line] + c);
        case Failed(c, e) => assert acc + [line] + c == acc + ([line] + c);
      } else {
        StripKeepsWritten(scope, state, acc, rest[1..], readFails);
      }
    }
  }

  /** No line is both kinds of marker of one scope. */
  lemma EndIsNotStart(scope: Scope, line: string)
    ensures IsEnd(scope, line) ==> !IsStart(scope, line)
  {
    match scope
    case Named(n) => StartIsNeverEnd(n, n, line);
    case AnyName => StartIsNeverEnd("", "", line);
  }

  /** Lines that are no markers are copied outside a block and dropped inside. */
  lemma {:induction false} StripPlainLines(scope: Scope, state: State, acc: seq<string>, pre: seq<string>,
                                           rest: seq<string>, readFails: bool)
    requires NoMarkers(scope, pre)
    ensures StripScan(scope, state, acc, pre + rest, readFails)
         == StripScan(scope, state, acc + (if state == Outside then pre else []), rest, readFails)
    decreases |pre|
  {
    if pre == [] {
      assert pre + rest == rest && acc + [] == acc;
    } else {
      assert (pre + rest)[0] == pre[0] && (pre + rest)[1..] == pre[1..] + rest;
      assert acc + [] == acc;
      var acc' := acc + (if state == Outside then [pre[0]] else []);
      StripPlainLines(scope, state, acc', pre[1..], rest, readFails);
      assert acc' + (if state == Outside then pre[1..] else []) == acc + (if state == Outside then pre else []);
    }
  }

  /** A file without markers is returned as it is: nothing is ever added. */
  lemma DeleteWithoutMarkers(scope: Scope, lines: seq<string>)
    requires NoMarkers(scope, lines)
    ensures StripScan(scope, Outside, [], lines, false) == Done(lines)
  {
    assert lines + [] == lines;
    StripPlainLines(scope, Outside, [], lines, [], false);
  }

  /** A read error ends every strip in failure, whatever the input held. */
  lemma {:induction false} StripFailsOnReadFailure(scope: Scope, state: State, acc: seq<string>, rest: seq<string>)
    ensures StripScan(scope, state, acc, rest, true).Failed?
    decreases |rest|
  {
    if rest != [] {
      var line := rest[0];
      if IsStart(scope, line) {
        if state == Outside {
          StripFailsOnReadFailure(scope, Inside, acc, rest[1..]);
        }
      } else if IsEnd(scope, line) {
        if state == Inside {
          StripFailsOnReadFailure(scope, Outside, acc, rest[1..]);
        }
      } else if state == Outside {
        StripFailsOnReadFailure(scope, state, acc + [line], rest[1..]);
      } else {
        StripFailsOnReadFailure(scope, state, acc, rest[1..]);
      }
    }
  }

  /** On a read error `Delete` and `DeleteAll` fail; on a file without their
      markers they return every line read, with the read error. */
  lemma DeleteReadFailure(lines: seq<string>, name: string)
    ensures Deleted(lines, true, name).Failed? && DeletedAll(lines, true).Failed?
    ensures NoMarkers(Named(name), lines) ==> Deleted(lines, true, name) == Failed(lines, ReadFailure)
    ensures NoMarkers(AnyName, lines) ==> DeletedAll(lines, true) == Failed(lines, ReadFailure)
  {
    StripFailsOnReadFailure(Named(name), Outside, [], lines);
    StripFailsOnReadFailure(AnyName, Outside, [], lines);
    assert lines + [] == lines;
    if NoMarkers(Named(name), lines) {
      StripPlainLines(Named(name), Outside, [], lines, [], true);
    }
    if NoMarkers(AnyName, lines) {
      StripPlainLines(AnyName, Outside, [], lines, [], true);
    }
  }

  /** A block, from a recognised start to a recognised end, is dropped with both
      markers, and the scan goes on after it as at the beginning. */
  lemma DeleteRemovesBlock(scope: Scope, pre: seq<string>, startLine: string, body: seq<string>,
                           endLine: string, post: seq<string>, readFails: bool)
    requires NoMarkers(scope, pre) && NoMarkers(scope, body)
    requires IsStart(scope, startLine) && IsEnd(scope, endLine)
    ensures StripScan(scope, Outside, [], pre + [startLine] + body + [endLine] + post, readFails)
         == Prepend(pre, StripScan(scope, Outside, [], post, readFails))
  {
    assert pre + [startLine] + body + [endLine] + post == pre + ([startLine] + (body + ([endLine] + post)));
    StripPlainLines(scope, Outside, [], pre, [startLine] + (body + ([endLine] + post)), readFails);
    assert [] + pre == pre;
    StripPlainLines(scope, Inside, pre, body, [endLine] + post, readFails);
    assert pre + [] == pre;
    EndIsNotStart(scope, endLine);
    StripKeepsWritten(scope, Outside, pre, post, readFails);
  }

  /** A start with no end drops everything after it, without an error. */
  lemma DeleteUnterminated(scope: Scope, pre: seq<string>, startLine: string, rest: seq<string>)
    requires NoMarkers(scope, pre) && NoMarkers(scope, rest) && IsStart(scope, startLine)
    ensures StripScan(scope, Outside, [], pre + [startLine] + rest, false) == Done(pre)
  {
    assert pre + [startLine] + rest == pre + ([startLine] + rest);
    StripPlainLines(scope, Outside, [], pre, [startLine] + rest, false);
    assert [] + pre == pre;
    assert rest + [] == rest;
    StripPlainLines(scope, Inside, pre, rest, [], false);
    assert pre + [] == pre;
  }

  /** An end outside a block fails with "Invalid end marker". */
  lemma DeleteStrayEnd(scope: Scope, pre: seq<string>, endLine: string, rest: seq<string>, readFails: bool)
    requires NoMarkers(scope, pre) && IsEnd(scope, endLine)
    ensures StripScan(scope, Outside, [], pre + [endLine] + rest, readFails) == Failed(pre, InvalidEndMarker)
  {
    EndIsNotStart(scope, endLine);
    assert pre + [endLine] + rest == pre + ([endLine] + rest);
    StripPlainLines(scope, Outside, [], pre, [endLine] + rest, readFails);
    assert [] + pre == pre;
  }

  /** A start inside a block fails with "Invalid start marker". */
  lemma DeleteStartInsideBlock(scope: Scope, pre: seq<string>, startLine: string, body: seq<string>,
                               again: string, rest: seq<string>, readFails: bool)
    requires NoMarkers(scope, pre) && NoMarkers(scope, body)
    requires IsStart(scope, startLine) && IsStart(scope, again)
    ensures StripScan(scope, Outside, [], pre + [startLine] + body + [again] + rest, readFails)
         == Failed(pre, InvalidStartMarker)
  {
    assert pre + [startLine] + body + [again] + rest == pre + ([startLine] + (body + ([again] + rest)));
    StripPlainLines(scope, Outside, [], pre, [startLine] + (body + ([again] + rest)), readFails);
    assert [] + pre == pre;
    StripPlainLines(scope, Inside, pre, body, [again] + rest, readFails);
    assert pre + [] == pre;
  }

  /** Whatever the input, the buffer never holds a marker the scope recognises. */
  lemma {:induction false} StripWritesNoMarkers(scope: Scope, state: State, acc: seq<string>, rest: seq<string>, readFails: bool)
    requires NoMarkers(scope, acc)
    ensures NoMarkers(scope, StripScan(scope, state, acc, rest, readFails).content)
    decreases |rest|
  {
    if rest != [] {
      var line := rest[0];
      if IsStart(scope, line) {
        if state == Outside {
          StripWritesNoMarkers(scope, Inside, acc, rest[1..], readFails);
        }
      } else if IsEnd(scope, line) {
        if state == Inside {
          StripWritesNoMarkers(scope, Outside, acc, rest[1..], readFails);
        }
      } else if state == Outside {
        StripWritesNoMarkers(scope, state, acc + [line], rest[1..], readFails);
      } else {
        StripWritesNoMarkers(scope, state, acc, rest[1..], readFails);
      }
    }
  }

  /** `Delete` and `DeleteAll` write no marker line of their kind. */
  lemma DeletedHaveNoMarkers(lines: seq<string>, readFails: bool, name: string)
    ensures Unmarked(Deleted(lines, readFails, name).content, StartMarker(name), EndMarker(name))
    ensures NoMarkers(AnyName, DeletedAll(lines, readFails).content)
  {
    StripWritesNoMarkers(Named(name), Outside, [], lines, readFails);
    NoMarkersNamed(name, Deleted(lines, readFails, name).content);
    StripWritesNoMarkers(AnyName, Outside, [], lines, readFails);
  }

  /** Two scopes that read every line of the file the same way strip it the same way. */
  lemma {:induction false} ScopesAgree(s1: Scope, s2: Scope, state: State, acc: seq<string>, rest: seq<string>, readFails: bool)
    requires forall k | 0 <= k < |rest| :: IsStart(s1, rest[k]) == IsStart(s2, rest[k]) && IsEnd(s1, rest[k]) == IsEnd(s2, rest[k])
    ensures StripScan(s1, state, acc, rest, readFails) == StripScan(s2, state, acc, rest, readFails)
    decreases |rest|
  {
    if rest != [] {
      var line := rest[0];
      var next := if IsStart(s1, line) then (if state == Outside then Inside else state)
                  else if IsEnd(s1, line) then (if state == Inside then Outside else state)
                  else state;
      var acc' := if !IsStart(s1, line) && !IsEnd(s1, line) && state == Outside then acc + [line] else acc;
      ScopesAgree(s1, s2, next, acc', rest[1..], readFails);
    }
  }

  /** On a file whose only markers are those of `name`, `DeleteAll` is `Delete(name)`. */
  lemma DeleteAllIsDeleteOfOnlyName(lines: seq<string>, readFails: bool, name: string)
    requires forall k | 0 <= k < |lines| ::
      (IsAnyStart(lines[k]) <==> lines[k] == StartMarker(name)) && (IsAnyEnd(lines[k]) <==> lines[k] == EndMarker(name))
    ensures DeletedAll(lines, readFails) == Deleted(lines, readFails, name)
  {
    ScopesAgree(AnyName, Named(name), Outside, [], lines, readFails);
  }

  // ----- Delete after Update -----

  /** On a file without the block, `Delete` undoes `Update` up to the blank line
      `Update` writes before the block it appends. */
  lemma DeleteUndoesAppend(lines: seq<string>, instances: seq<Instance>, name: string, public: string, tags: seq<string>)
    requires Unmarked(lines, StartMarker(name), EndMarker(name))
    requires Unmarked(Body(instances, public, tags), StartMarker(name), EndMarker(name))
    ensures Deleted(Updated(lines, false, instances, name, public, tags).content, false, name) == Done(lines + [""])
  {
    var s, e, body := StartMarker(name), EndMarker(name), Body(instances, public, tags);
    UpdateAppendsBlock(lines, instances, name, public, tags);
    EmptyLineIsNoMarker();
    NoMarkersNamed(name, lines + [""]);
    NoMarkersNamed(name, body);
    assert lines + ["", s] + body + [e] == (lines + [""]) + [s] + body + [e] + [];
    DeleteRemovesBlock(Named(name), lines + [""], s, body, e, [], false);
    assert (lines + [""]) + [] == lines + [""];
  }

  /** On a file with one well-formed block, deleting after updating gives what
      deleting alone gives: the lines around the block. */
  lemma DeleteUndoesReplace(pre: seq<string>, stale: seq<string>, post: seq<string>,
                            instances: seq<Instance>, name: string, public: string, tags: seq<string>)
    requires Unmarked(pre, StartMarker(name), EndMarker(name))
    requires Unmarked(stale, StartMarker(name), EndMarker(name))
    requires Unmarked(post, StartMarker(name), EndMarker(name))
    requires Unmarked(Body(instances, public, tags), StartMarker(name), EndMarker(name))
    ensures var lines := pre + [StartMarker(name)] + stale + [EndMarker(name)] + post;
      Deleted(Updated(lines, false, instances, name, public, tags).content, false, name)
        == Deleted(lines, false, name)
        == Done(pre + post)
  {
    var s, e, body := StartMarker(name), EndMarker(name), Body(instances, public, tags);
    UpdateReplacesBlock(pre, stale, post, instances, name, public, tags);
    NoMarkersNamed(name, pre);
    NoMarkersNamed(name, stale);
    NoMarkersNamed(name, post);
    NoMarkersNamed(name, body);
    DeleteWithoutMarkers(Named(name), post);
    DeleteRemovesBlock(Named(name), pre, s, body, e, post, false);
    DeleteRemovesBlock(Named(name), pre, s, stale, e, post, false);
  }

  /** On a file without any managed block, `DeleteAll` undoes `Update` up to the
      blank separator line, provided the name is one the any-name pattern accepts
      and the body holds no marker. */
  lemma DeleteAllUndoesAppend(lines: seq<string>, instances: seq<Instance>, name: string, public: string, tags: seq<string>)
    requires NoMarkers(AnyName, lines)
    requires name != "" && '\n' !in name
    requires NoMarkers(AnyName, Body(instances, public, tags))
    ensures DeletedAll(Updated(lines, false, instances, name, public, tags).content, false) == Done(lines + [""])
  {
    var s, e, body := StartMarker(name), EndMarker(name), Body(instances, public, tags);
    StartMarkerMatchesAny(name);
    EndMarkerMatchesAny(name);
    AnyMarkersIncludeNamed(name, lines);
    UpdateAppendsBlock(lines, instances, name, public, tags);
    EmptyLineIsNoMarker();
    assert NoMarkers(AnyName, lines + [""]);
    assert lines + ["", s] + body + [e] == (lines + [""]) + [s] + body + [e] + [];
    DeleteRemovesBlock(AnyName, lines + [""], s, body, e, [], false);
    assert (lines + [""]) + [] == lines + [""];
  }

  /** A line that no any-name pattern accepts is neither marker of a name the
      patterns accept. */
  lemma AnyMarkersIncludeNamed(name: string, lines: seq<string>)
    requires name != "" && '\n' !in name
    requires NoMarkers(AnyName, lines)
    ensures Unmarked(lines, StartMarker(name), EndMarker(name))
  {
    StartMarkerMatchesAny(name);
    EndMarkerMatchesAny(name);
  }

  /** The any-name patterns need a non-empty name, so `DeleteAll` leaves a block
      called "" in place: after `Update` with the empty name it removes nothing. */
  lemma DeleteAllKeepsEmptyNamedBlock(lines: seq<string>, instances: seq<Instance>, public: string, tags: seq<string>)
    requires NoMarkers(AnyName, lines) && Unmarked(lines, StartMarker(""), EndMarker(""))
    requires NoMarkers(AnyName, Body(instances, public, tags))
    ensures var out := Updated(lines, false, instances, "", public, tags).content;
      DeletedAll(out, false) == Done(out)
  {
    var s, e, body := StartMarker(""), EndMarker(""), Body(instances, public, tags);
    StartMarkerMatchesAny("");
    EndMarkerMatchesAny("");
    StartIsNeverEnd("", "", "");
    UpdateAppendsBlock(lines, instances, "", public, tags);
    EmptyLineIsNoMarker();
    var out := lines + ["", s] + body + [e];
    assert NoMarkers(AnyName, out);
    DeleteWithoutMarkers(AnyName, out);
  }
}
