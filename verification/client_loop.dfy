/** The address prompt loop of the client's `main`. The user's typed lines and
    the outcomes of the connection attempts (the whole of `tcp_communication`,
    true when the session ended normally) are given as finite sequences,
    consumed from the front. */
module ClientLoop {
  import opened Ipv4

  /** The address `main` stores after a failed connection. */
  const Sentinel: string := "0"

  datatype Ending =
    | Connected      // an attempt returned true (connected, then the user quit with 'q') and the loop broke out
    | OutOfInput     // the loop wanted another typed line and there was none
    | OutOfOutcomes  // the loop wanted another connection attempt and there was none,
                     // while a valid typed address was still untried

  /** The addresses the client tried to connect to, in order, and why it stopped. */
  datatype Run = Run(attempts: seq<string>, ending: Ending)

  /** The lines among `lines` that pass the address test `valid`, in order
      (ValidOnesCount, ValidOnesAppend). */
  function ValidOnes(valid: string -> bool, lines: seq<string>): (v: seq<string>)
    ensures |v| <= |lines|
    ensures forall i :: 0 <= i < |v| ==> valid(v[i]) && v[i] in lines
    decreases |lines|
  {
    if |lines| == 0 then []
    else if valid(lines[0]) then [lines[0]] + ValidOnes(valid, lines[1..])
    else ValidOnes(valid, lines[1..])
  }

  /** Each passing line is kept as often as it was typed; each failing line
      is dropped. */
  lemma {:induction false} ValidOnesCount(valid: string -> bool, lines: seq<string>)
    ensures forall x :: multiset(ValidOnes(valid, lines))[x]
                        == (if valid(x) then multiset(lines)[x] else 0)
    decreases |lines|
  {
    if |lines| > 0 {
      ValidOnesCount(valid, lines[1..]);
      assert lines == [lines[0]] + lines[1..];
    }
  }

  /** Filtering a sequence typed in two parts filters each part and keeps
      the parts in order. */
  lemma {:induction false} ValidOnesAppend(valid: string -> bool, a: seq<string>, b: seq<string>)
    ensures ValidOnes(valid, a + b) == ValidOnes(valid, a) + ValidOnes(valid, b)
    decreases |a|
  {
    if |a| > 0 {
      assert (a + b)[0] == a[0];
      assert (a + b)[1..] == a[1..] + b;
      ValidOnesAppend(valid, a[1..], b);
    } else {
      assert a + b == b;
    }
  }

  /** The `while True` loop of `main`, entered with `ip` as the current
      address and `lines` the lines the user will type next. The loop is
      stated for any address test that rejects the sentinel; `main` uses
      `IsValidIp`, which does (SentinelRejected). */
  function Loop(valid: string -> bool, ip: string, lines: seq<string>, outcomes: seq<bool>): (r: Run)
    requires !valid(Sentinel)
    ensures |r.attempts| <= |outcomes|
    ensures r.attempts <= ValidOnes(valid, [ip] + lines)
    ensures r.ending == OutOfInput ==> r.attempts == ValidOnes(valid, [ip] + lines)
    ensures r.ending == OutOfOutcomes ==> |r.attempts| == |outcomes|
    ensures r.ending == OutOfOutcomes ==> |r.attempts| < |ValidOnes(valid, [ip] + lines)|
    ensures forall j :: 0 <= j < |r.attempts| - 1 ==> !outcomes[j]
    ensures r.ending == Connected <==> |r.attempts| > 0 && outcomes[|r.attempts| - 1]
    decreases |lines|, |outcomes|
  {
    assert ([ip] + lines)[1..] == lines;
    if valid(ip) then
      if |outcomes| == 0 then Run([], OutOfOutcomes)
      else if outcomes[0] then Run([ip], Connected)
      else
        assert ([Sentinel] + lines)[1..] == lines;
        assert ValidOnes(valid, [Sentinel] + lines) == ValidOnes(valid, lines);
        assert ValidOnes(valid, [ip] + lines) == [ip] + ValidOnes(valid, lines);
        var rest := Loop(valid, Sentinel, lines, outcomes[1..]);
        Run([ip] + rest.attempts, rest.ending)
    else if |lines| == 0 then Run([], OutOfInput)
    else
      assert [lines[0]] + lines[1..] == lines;
      assert ValidOnes(valid, [ip] + lines) == ValidOnes(valid, lines);
      Loop(valid, lines[0], lines[1..], outcomes)
  }

  /** `main` for any address test that rejects the sentinel: the first
      typed line is the first address. */
  function Start(valid: string -> bool, lines: seq<string>, outcomes: seq<bool>): (r: Run)
    requires !valid(Sentinel)
    ensures |r.attempts| <= |lines| && |r.attempts| <= |outcomes|
    ensures forall i :: 0 <= i < |r.attempts| ==> valid(r.attempts[i])
    ensures r.attempts <= ValidOnes(valid, lines)
    ensures r.ending == OutOfInput ==> r.attempts == ValidOnes(valid, lines)
    ensures r.ending == OutOfOutcomes ==> |r.attempts| == |outcomes|
    ensures r.ending == OutOfOutcomes ==> |r.attempts| < |ValidOnes(valid, lines)|
    ensures forall j :: 0 <= j < |r.attempts| - 1 ==> !outcomes[j]
    ensures r.ending == Connected <==> |r.attempts| > 0 && outcomes[|r.attempts| - 1]
  {
    if |lines| == 0 then Run([], OutOfInput)
    else
      assert [lines[0]] + lines[1..] == lines;
      Loop(valid, lines[0], lines[1..], outcomes)
  }

  /** `main` itself, with the address test of `is_valid_ip`. */
  function RunClient(lines: seq<string>, outcomes: seq<bool>): (r: Run)
    ensures |r.attempts| <= |lines| && |r.attempts| <= |outcomes|
    ensures forall i :: 0 <= i < |r.attempts| ==> IsValidIp(r.attempts[i])
    ensures r.attempts <= ValidOnes(IsValidIp, lines)
    ensures r.ending == OutOfInput ==> r.attempts == ValidOnes(IsValidIp, lines)
    ensures r.ending == OutOfOutcomes ==> |r.attempts| == |outcomes|
    ensures r.ending == OutOfOutcomes ==> |r.attempts| < |ValidOnes(IsValidIp, lines)|
    ensures forall j :: 0 <= j < |r.attempts| - 1 ==> !outcomes[j]
    ensures r.ending == Connected <==> |r.attempts| > 0 && outcomes[|r.attempts| - 1]
  {
    SentinelRejected();
    Start(IsValidIp, lines, outcomes)
  }

  /** After a failed connection the loop asks for a new line before trying
      again: the next attempt is taken from the next typed line, so the
      failed address is not retried without new input. */
  lemma FailedAttemptReprompts(ip: string, line: string, lines: seq<string>, outcomes: seq<bool>)
    requires IsValidIp(ip) && |outcomes| > 0 && !outcomes[0]
    ensures Loop(IsValidIp, ip, [line] + lines, outcomes).attempts
         == [ip] + Loop(IsValidIp, line, lines, outcomes[1..]).attempts
  {
  }
}
