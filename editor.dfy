/** The block editor: `Update`, `Delete` and `DeleteAll`, each a single pass over
    the lines of the hosts file that moves between a few states on marker lines
    and appends to an output buffer.

    The input is the list of lines the scanner delivers, together with whether
    the scanner then stops with a read error. The output is the list of lines
    written to the buffer; each is written followed by "\n" (see `Render`). Each
    operation is given twice: as a specification function, a fold over the
    lines, and as the loop the source runs, proved to compute the same thing. */
module Editor {
  import opened Markers
  import opened Inventory
  import opened Formatter

  /** The scan states; `Update` uses the first three, `Delete` and `DeleteAll`
      use `Outside` and `Inside`. */
  datatype State = Before | After | Inside | Outside

  datatype EditError = InvalidStartMarker | InvalidEndMarker | ReadFailure

  /** What an operation returns: the buffer, and an error when it stopped early.
      After an error the buffer is whatever had been written so far. */
  datatype Outcome = Done(content: seq<string>) | Failed(content: seq<string>, error: EditError)

  /** The bytes of the buffer: every line followed by a newline. */
  function Render(lines: seq<string>): string {
    if lines == [] then "" else lines[0] + "\n" + Render(lines[1..])
  }

  /** The bytes of two buffers written one after the other are the bytes of the
      first followed by those of the second. */
  lemma {:induction false} RenderAppend(a: seq<string>, b: seq<string>)
    ensures Render(a + b) == Render(a) + Render(b)
    decreases |a|
  {
    if a == [] {
      assert a + b == b;
    } else {
      assert (a + b)[0] == a[0] && (a + b)[1..] == a[1..] + b;
      RenderAppend(a[1..], b);
    }
  }

  /** Writing one more line, as `Fprintf(&content, "%s\n", line)` does, appends
      it and a newline to the bytes. */
  lemma WriteLine(acc: seq<string>, line: string)
    ensures Render(acc + [line]) == Render(acc) + line + "\n"
  {
    RenderAppend(acc, [line]);
    assert Render([line]) == line + "\n" + Render([]);
  }

  /** The regenerated block body: one formatted line per instance, in list order,
      each at the address `ChooseAddress` picks for it. */
  function Body(instances: seq<Instance>, public: string, tags: seq<string>): seq<string> {
    seq(|instances|, k requires 0 <= k < |instances| =>
      FormatLine(ChooseAddress(instances[k], public), instances[k], tags))
  }

  // ----- Update -----

  /** The rest of `Update`'s scan from `state`, having written `acc`, with `rest`
      still to read. `start` and `end` are the two markers, `body` the lines the
      block is filled with. */
  function UpdateScan(state: State, acc: seq<string>, rest: seq<string>, readFails: bool,
                      start: string, end: string, body: seq<string>): Outcome
    decreases |rest|
  {
    if rest == [] then
      if readFails then Failed(acc, ReadFailure)
      else if state == Before then Done(acc + ["", start] + body + [end])
      else Done(acc)
    else
      var line := rest[0];
      if line == start then
        if state == Before then UpdateScan(Inside, acc + [start] + body, rest[1..], readFails, start, end, body)
        else Failed(acc, InvalidStartMarker)
      else if line == end then
        if state == Inside then UpdateScan(After, acc + [end], rest[1..], readFails, start, end, body)
        else Failed(acc, InvalidEndMarker)
      else if state == Before || state == After then
        UpdateScan(state, acc + [line], rest[1..], readFails, start, end, body)
      else
        UpdateScan(state, acc, rest[1..], readFails, start, end, body)
  }

  /** The result of `Update(input, instances, name, public, tags)`. */
  function Updated(lines: seq<string>, readFails: bool, instances: seq<Instance>,
                   name: string, public: string, tags: seq<string>): Outcome
  {
    UpdateScan(Before, [], lines, readFails, StartMarker(name), EndMarker(name), Body(instances, public, tags))
  }

  /** One more instance adds its line at the end of the body. */
  lemma BodySnoc(instances: seq<Instance>, n: nat, public: string, tags: seq<string>)
    requires n < |instances|
    ensures Body(instances[..n + 1], public, tags)
         == Body(instances[..n], public, tags) + [FormatLine(ChooseAddress(instances[n], public), instances[n], tags)]
  {
    var b, b' := Body(instances[..n], public, tags), Body(instances[..n + 1], public, tags);
    var line := FormatLine(ChooseAddress(instances[n], public), instances[n], tags);
    assert |b'| == |b| + 1;
    assert forall k | 0 <= k < n :: b'[k] == b[k];
    assert b'[n] == line;
    assert b' == b + [line];
  }

  /** The loop `Update` runs over the instances: format each one at its address
      and write the line. */
  method WriteInstances(content: seq<string>, instances: seq<Instance>, public: string, tags: seq<string>)
    returns (written: seq<string>)
    ensures written == content + Body(instances, public, tags)
  {
    written := content;
    var n := 0;
    while n < |instances|
      invariant n <= |instances|
      invariant written == content + Body(instances[..n], public, tags)
    {
      var inst := instances[n];
      var ip: string;
      if public != "" && Strings.Contains(Name(inst), public) {
        ip := inst.publicIp;
      } else {
        ip := inst.privateIp;
      }
      var line := WriteInstanceContent(ip, inst, tags);
      assert ip == ChooseAddress(inst, public);
      BodySnoc(instances, n, public, tags);
      written := written + [line];
      n := n + 1;
    }
    assert instances[..n] == instances;
  }

  /** `Update`: copy the file, regenerating the body of the block `name`, or
      append a new block when the file has none. */
  method Update(lines: seq<string>, readFails: bool, instances: seq<Instance>,
                name: string, public: string, tags: seq<string>) returns (out: Outcome)
    ensures out == Updated(lines, readFails, instances, name, public, tags)
  {
    var content: seq<string> := [];
    var state := Before;
    var startMarker := StartMarker(name);
    var endMarker := EndMarker(name);
    ghost var body := Body(instances, public, tags);
    var i := 0;
    while i < |lines|
      invariant i <= |lines|
      invariant UpdateScan(state, content, lines[i..], readFails, startMarker, endMarker, body)
             == Updated(lines, readFails, instances, name, public, tags)
    {
      var line := lines[i];
      assert lines[i..][0] == line && lines[i..][1..] == lines[i + 1..];
      if line == startMarker {
        if state == Before {
          content := content + [startMarker];
          state := Inside;
          content := WriteInstances(content, instances, public, tags);
        } else {
          return Failed(content, InvalidStartMarker);
        }
      } else if line == endMarker {
        if state == Inside {
          content := content + [endMarker];
          state := After;
        } else {
          return Failed(content, InvalidEndMarker);
        }
      } else if state == Before || state == After {
        content := content + [line];
      }
      i := i + 1;
    }
    if readFails {
      return Failed(content, ReadFailure);
    }
    if state == Before {
      content := content + ["", startMarker];
      content := WriteInstances(content, instances, public, tags);
      content := content + [endMarker];
    }
    return Done(content);
  }

  // ----- Delete and DeleteAll -----

  /** Which markers a strip recognises: those of one name (`Delete`) or those of
      any name (`DeleteAll`). */
  datatype Scope = Named(name: string) | AnyName

  predicate IsStart(scope: Scope, line: string) {
    match scope
    case Named(n) => line == StartMarker(n)
    case AnyName => IsAnyStart(line)
  }

  predicate IsEnd(scope: Scope, line: string) {
    match scope
    case Named(n) => line == EndMarker(n)
    case AnyName => IsAnyEnd(line)
  }

  /** The rest of a strip's scan from `state`, having written `acc`. */
  function StripScan(scope: Scope, state: State, acc: seq<string>, rest: seq<string>, readFails: bool): Outcome
    decreases |rest|
  {
    if rest == [] then
      if readFails then Failed(acc, ReadFailure) else Done(acc)
    else
      var line := rest[0];
      if IsStart(scope, line) then
        if state == Outside then StripScan(scope, Inside, acc, rest[1..], readFails)
        else Failed(acc, InvalidStartMarker)
      else if IsEnd(scope, line) then
        if state == Inside then StripScan(scope, Outside, acc, rest[1..], readFails)
        else Failed(acc, InvalidEndMarker)
      else if state == Outside then
        StripScan(scope, state, acc + [line], rest[1..], readFails)
      else
        StripScan(scope, state, acc, rest[1..], readFails)
  }

  /** The result of `Delete(input, name)`. */
  function Deleted(lines: seq<string>, readFails: bool, name: string): Outcome {
    StripScan(Named(name), Outside, [], lines, readFails)
  }

  /** The result of `DeleteAll(input)`. */
  function DeletedAll(lines: seq<string>, readFails: bool): Outcome {
    StripScan(AnyName, Outside, [], lines, readFails)
  }

  /** `Delete`: copy the file without the blocks called `name`. */
  method Delete(lines: seq<string>, readFails: bool, name: string) returns (out: Outcome)
    ensures out == Deleted(lines, readFails, name)
  {
    var content: seq<string> := [];
    var state := Outside;
    var startMarker := StartMarker(name);
    var endMarker := EndMarker(name);
    var i := 0;
    while i < |lines|
      invariant i <= |lines|
      invariant StripScan(Named(name), state, content, lines[i..], readFails) == Deleted(lines, readFails, name)
    {
      var line := lines[i];
      assert lines[i..][0] == line && lines[i..][1..] == lines[i + 1..];
      if line == startMarker {
        if state == Outside {
          state := Inside;
        } else {
          return Failed(content, InvalidStartMarker);
        }
      } else if line == endMarker {
        if state == Inside {
          state := Outside;
        } else {
          return Failed(content, InvalidEndMarker);
        }
      } else if state == Outside {
        content := content + [line];
      }
      i := i + 1;
    }
    if readFails {
      return Failed(content, ReadFailure);
    }
    return Done(content);
  }

  /** `DeleteAll`: copy the file without any managed block, whatever its name. */
  method DeleteAll(lines: seq<string>, readFails: bool) returns (out: Outcome)
    ensures out == DeletedAll(lines, readFails)
  {
    var content: seq<string> := [];
    var state := Outside;
    var i := 0;
    while i < |lines|
      invariant i <= |lines|
      invariant StripScan(AnyName, state, content, lines[i..], readFails) == DeletedAll(lines, readFails)
    {
      var line := lines[i];
      assert lines[i..][0] == line && lines[i..][1..] == lines[i + 1..];
      if IsAnyStart(line) {
        if state == Outside {
          state := Inside;
        } else {
          return Failed(content, InvalidStartMarker);
        }
      } else if IsAnyEnd(line) {
        if state == Inside {
          state := Outside;
        } else {
          return Failed(content, InvalidEndMarker);
        }
      } else if state == Outside {
        content := content + [line];
      }
      i := i + 1;
    }
    if readFails {
      return Failed(content, ReadFailure);
    }
    return Done(content);
  }
}
