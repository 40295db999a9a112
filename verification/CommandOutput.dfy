/** What a command's result keeps of its output, and how a failing command is retried. */
module CommandOutput {
  import opened Text

  const LIMIT: nat := 10 * 1024 * 1024
  const KEPT: nat := 5 * 1024 * 1024

  // ------------------------------------------------------------------- buffers

  /** One chunk arrives: past the limit only the newest part stays. */
  function Appended(buffer: string, chunk: string): string {
    var s := buffer + chunk;
    if |s| > LIMIT then s[|s| - KEPT..] else s
  }

  function Buffered(chunks: seq<string>): string {
    if chunks == [] then "" else Appended(Buffered(chunks[..|chunks| - 1]), chunks[|chunks| - 1])
  }

  /** Up to 10 MiB all is kept; past that the newest 5 MiB are. */
  lemma KeepsNewest(chunks: seq<string>, chunk: string)
    ensures var all := Buffered(chunks) + chunk;
            Buffered(chunks + [chunk]) == if |all| <= 10485760 then all else all[|all| - 5242880..]
  {
    assert (chunks + [chunk])[..|chunks|] == chunks;
  }

  /** Everything the command printed. */
  function Stream(chunks: seq<string>): string {
    if chunks == [] then "" else Stream(chunks[..|chunks| - 1]) + chunks[|chunks| - 1]
  }

  predicate EndsWith(s: string, tail: string) { |tail| <= |s| && s[|s| - |tail|..] == tail }

  lemma TailOfTail(s: string, tail: string, more: string)
    requires EndsWith(s, tail)
    ensures EndsWith(s + more, tail + more)
    ensures |tail + more| > LIMIT ==> EndsWith(s + more, (tail + more)[|tail + more| - KEPT..])
  {
    assert (s + more)[|s| - |tail|..] == tail + more;
  }

  /** The buffer is a suffix of the stream, never longer than the limit; it is the whole
      stream exactly as long as that fits, and at least half the limit from then on. */
  lemma {:induction false} BufferExact(chunks: seq<string>)
    ensures EndsWith(Stream(chunks), Buffered(chunks))
    ensures |Buffered(chunks)| <= 10485760
    ensures Buffered(chunks) == Stream(chunks) <==> |Stream(chunks)| <= 10485760
    ensures |Stream(chunks)| > 10485760 ==> |Buffered(chunks)| >= 5242880
  {
    if chunks != [] {
      var init, last := chunks[..|chunks| - 1], chunks[|chunks| - 1];
      BufferExact(init);
      TailOfTail(Stream(init), Buffered(init), last);
    }
  }

  // --------------------------------------------------------------- one execution

  datatype Event = Stdout(data: string) | Stderr(data: string)

  function Chunks(events: seq<Event>, out: bool): seq<string> {
    if events == [] then []
    else
      var last := events[|events| - 1];
      Chunks(events[..|events| - 1], out) + if last.Stdout? == out then [last.data] else []
  }

  lemma ChunksStep(events: seq<Event>, e: Event, out: bool)
    ensures Buffered(Chunks(events + [e], out))
            == if e.Stdout? == out then Appended(Buffered(Chunks(events, out)), e.data)
               else Buffered(Chunks(events, out))
  {
    assert (events + [e])[..|events|] == events;
    var chunks := Chunks(events, out);
    assert chunks + [] == chunks;
    assert (chunks + [e.data])[..|chunks|] == chunks;
  }

  /** What was printed is told apart by stream. */
  lemma StreamsApart(events: seq<Event>, data: string)
    ensures Stream(Chunks(events + [Stdout(data)], true)) == Stream(Chunks(events, true)) + data
    ensures Stream(Chunks(events + [Stderr(data)], false)) == Stream(Chunks(events, false)) + data
    ensures Stream(Chunks(events + [Stdout(data)], false)) == Stream(Chunks(events, false))
    ensures Stream(Chunks(events + [Stderr(data)], true)) == Stream(Chunks(events, true))
  {
    assert (events + [Stdout(data)])[..|events|] == events && (events + [Stderr(data)])[..|events|] == events;
    var out, err := Chunks(events, true), Chunks(events, false);
    assert out + [] == out && err + [] == err;
    assert (out + [data])[..|out|] == out && (err + [data])[..|err|] == err;
  }

  /** How the process ended; one that a signal has killed closes without an exit code. */
  datatype Ending = Closed(exitCode: Option<int>) | TimedOut(timeout: nat) | Broken(message: string)

  datatype CommandResult = CommandResult(success: bool, stdout: string, stderr: string, exitCode: Option<int>)

  function Resolved(stdout: string, stderr: string, ending: Ending): CommandResult {
    match ending
    case Closed(code) => CommandResult(code == Some(0), stdout, stderr, code)
    case TimedOut(timeout) =>
      CommandResult(false, stdout, "Command timed out after " + ToDecimal(timeout) + "ms\n" + stderr, None)
    case Broken(message) => CommandResult(false, stdout, message, None)
  }

  class Execution {
    var stdout: string
    var stderr: string
    ghost var events: seq<Event>

    /** Each stream's buffer depends on that stream's chunks only, however the two
        interleave. */
    ghost predicate Valid()
      reads this
    {
      stdout == Buffered(Chunks(events, true)) && stderr == Buffered(Chunks(events, false))
    }

    constructor ()
      ensures Valid() && events == []
    {
      stdout, stderr, events := "", "", [];
    }

    static method Append(buffer: string, data: string) returns (r: string)
      ensures r == Appended(buffer, data)
    {
      r := buffer + data;
      if |r| > LIMIT { r := r[|r| - KEPT..]; }
    }

    method OnData(e: Event)
      requires Valid()
      modifies this
      ensures Valid() && events == old(events) + [e]
    {
      ChunksStep(events, e, true);
      ChunksStep(events, e, false);
      if e.Stdout? {
        stdout := Append(stdout, e.data);
      } else {
        stderr := Append(stderr, e.data);
      }
      events := events + [e];
    }

    /** The result holds the tail of each stream. */
    method OnEnd(ending: Ending) returns (r: CommandResult)
      requires Valid()
      ensures r.success <==> ending == Closed(Some(0))
      ensures r.exitCode == if ending.Closed? then ending.exitCode else None
      ensures EndsWith(Stream(Chunks(events, true)), r.stdout) && |r.stdout| <= LIMIT
      ensures |Stream(Chunks(events, true))| <= LIMIT ==> r.stdout == Stream(Chunks(events, true))
      ensures ending.Closed? ==> EndsWith(Stream(Chunks(events, false)), r.stderr)
      ensures var kept := Buffered(Chunks(events, false));
              r.stderr == match ending
                          case Closed(_) => kept
                          case TimedOut(timeout) => "Command timed out after " + ToDecimal(timeout) + "ms\n" + kept
                          case Broken(message) => message
    {
      r := Resolved(stdout, stderr, ending);
      BufferExact(Chunks(events, true));
      BufferExact(Chunks(events, false));
    }
  }

  // -------------------------------------------------------------------- retries

  function Triangle(n: int): int { n * (n - 1) / 2 }

  lemma TriangleStep(n: nat)
    ensures Triangle(n + 1) == Triangle(n) + n && Triangle(0) == 0
  {
    assert (n + 1) * n == n * (n - 1) + 2 * n;
  }

  /** `outcome(k)` is what the k-th attempt returns. The result is the first success, or
      the last failure; k attempts wait retryDelay * k(k-1)/2 in total. With no attempt
      allowed there is no result at all. */
  method ExecuteWithRetry(outcome: int -> CommandResult, maxRetries: int, retryDelay: nat)
    returns (lastResult: Option<CommandResult>, attempts: nat, waited: int)
    ensures lastResult.None? <==> maxRetries < 1
    ensures attempts <= maxRetries || maxRetries < 1
    ensures lastResult.Some? ==> attempts >= 1 && lastResult.value == outcome(attempts)
    ensures lastResult.Some? ==> (lastResult.value.success || attempts == maxRetries)
    ensures forall k :: 1 <= k < attempts ==> !outcome(k).success
    ensures waited == retryDelay * Triangle(attempts)
  {
    lastResult, attempts, waited := None, 0, 0;
    while attempts < maxRetries
      invariant attempts <= maxRetries || maxRetries < 1
      invariant attempts >= 1 ==> lastResult == Some(outcome(attempts))
      invariant attempts == 0 ==> lastResult.None?
      invariant maxRetries < 1 ==> attempts == 0
      invariant forall k :: 1 <= k <= attempts ==> !outcome(k).success
      invariant waited == retryDelay * Triangle(if 1 <= attempts < maxRetries then attempts + 1 else attempts)
    {
      TriangleStep(attempts);
      TriangleStep(attempts + 1);
      attempts := attempts + 1;
      lastResult := Some(outcome(attempts));
      if lastResult.value.success { return; }
      if attempts < maxRetries {
        waited := waited + retryDelay * attempts;
      }
    }
  }
}
