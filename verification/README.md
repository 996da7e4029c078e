# IPv4 address check of the shippy client

This project models the one piece of pure logic in the shippy client:
`is_valid_ip`, the test the client applies to the server address the user
types before it tries to open a TCP connection. The text is split on `.`.
There must be exactly four pieces. Each piece must be a non-empty string of
decimal digits whose integer value lies in 0..255.

The model is written on `string` (`seq<char>`):

- `Text` holds Python's `str.split('.')`. `Split` takes a one-character
  separator, so `""` gives `[""]` and adjacent dots give empty pieces. Its
  inverse is `Join`.
- `Decimal` holds `str.isdigit`, read on ASCII as "non-empty, all of
  `'0'..'9'`". It also holds `int(...)` on such a string, as the positional
  value `Value`, and `ToDecimal`, the canonical notation that inverts `Value`.
- `Ipv4` holds `IsValidIp`, which follows the source step by step. `CheckIp`
  is the same loop with its early `return False`. `ValidQuad` is an
  independent description: four octets written with a dot between them.
  The contract of `IsValidIp` says the two agree on every input, and
  `PiecesIffQuad` proves it.
- `ClientLoop` holds the address prompt loop of `main`. The lines the user
  types and the outcomes of the connection attempts are finite sequences.
  The model shows why the sentinel `'0'` stored after a failed connection
  matters: `'0'` is not a valid address, so the loop always asks for a new
  line. As a result, the client tries the valid addresses among the typed
  lines, in order, each typed line at most once, and stops at the first
  attempt that succeeds. The loop is written for any address test that
  rejects the sentinel (`Loop`, `Start`); `RunClient` uses `IsValidIp`.

In the source, `int(part)` is reached only when `part.isdigit()` holds,
because `or` short-circuits. So `int` never sees a sign, a space or an empty
string here, and `Value` is only defined on digit strings. Every statement
about the value of a piece holds within CPython's limit on the length of a
string that `int` converts (see "Left out").

## Model

| member | source | states |
|---|---|---|
| Text.Split | client.py:31 | `split('.')` always yields at least one piece and no piece contains a dot; `Join` is its inverse (JoinSplit, SplitJoin) |
| Text.JoinSplit | client.py:31 | joining the pieces from `split('.')` with dots gives back the typed text |
| Text.SplitJoin | client.py:31 | splitting a dot-join of dot-free pieces gives back those pieces, so each text has one split |
| Text.SplitCount | client.py:31-33 | a text with k dots splits into k + 1 pieces |
| Text.SplitHead | client.py:31 | the first piece is empty exactly when the text is empty or begins with a dot |
| Text.FirstPiece | client.py:31 | a dot-free prefix that ends at a dot, or at the end of the text, is the first piece |
| Text.SplitPrefix | client.py:31 | a dot-free prefix is glued onto the first piece of the remainder's split |
| Decimal.Value | client.py:35 | `int(part)` of a digit string is a natural number below 10 to the power of its length |
| Decimal.ToDecimal | client.py:35 | every natural number has a canonical digit string (no leading zero except "0") whose value is that number |
| Decimal.ValueAppend | client.py:35 | the value of a concatenation is the left value shifted by the right length, plus the right value |
| Decimal.LeadingZeros | client.py:35 | leading zeros do not change a piece's value |
| Decimal.ValueInjective | client.py:35 | two digit strings of equal length with equal value are the same text |
| Decimal.LeadingDigitBound | client.py:35 | a digit string without a leading zero is worth at least 10 to the power of its length minus one |
| Decimal.CanonicalUnique | client.py:35 | a digit string without a superfluous leading zero is the canonical notation of its value, so `int` is one-to-one on such strings |
| Decimal.DigitStringForm | client.py:35 | every string that passes `isdigit` is the canonical notation of its `int` value with zeros in front |
| Decimal.DigitStringIffPadded | client.py:35 | `part.isdigit()` (IsDigitString) holds exactly for zero-padded notations of naturals, and `int` of the padded notation of n is n |
| Ipv4.PieceOkIffPadded | client.py:35 | a piece passes the per-piece test (PieceOk) iff it is the notation of some n <= 255 with any number of zeros in front |
| Ipv4.AllPiecesOk | client.py:34-37 | the per-piece loop returns true iff every piece is a digit string with value in 0..255, and on false some piece fails |
| Ipv4.IsValidIp | client.py:30-37 | `is_valid_ip` accepts a text iff it is four digit strings of value at most 255 joined by dots (ValidQuad) |
| Ipv4.CheckIp | client.py:30-37 | the loop with early return accepts exactly the four-octet dotted quads, and agrees with `IsValidIp` |
| Ipv4.PiecesIffQuad | client.py:31-37 | four pieces that all pass the test are exactly the dotted quads of octets |
| Ipv4.QuadFromPieces | client.py:31-37 | four passing pieces, rejoined with dots, form a dotted quad of octets |
| Ipv4.PiecesFromQuad | client.py:31-37 | a dotted quad of octets splits into four pieces that all pass |
| Ipv4.WrongDotCountRejected | client.py:31-33 | a text that does not have exactly three dots is rejected ("1.2.3", "1.2.3.4.5") |
| Ipv4.StrayCharacterRejected | client.py:35 | a character that is neither a digit nor a dot (sign, space, letter) gets the text rejected |
| Ipv4.EmptyPieceRejected | client.py:35 | a leading dot, a trailing dot or two dots in a row (an empty piece) gets the text rejected |
| Ipv4.OutOfRangeRejected | client.py:35 | a digit piece whose value exceeds 255 gets the text rejected |
| Ipv4.FirstPieceOutOfRange | client.py:35 | a text that starts with digits worth more than 255, followed by a dot or by nothing, is rejected |
| Ipv4.LowerBoundRedundant | client.py:35 | the `0 <=` bound cannot fail on a digit string, so only the upper bound decides |
| Ipv4.PadPiece | client.py:35 | zeros in front of a non-empty piece do not change whether it passes |
| Ipv4.VerdictOfDotted | client.py:30-37 | four dot-free pieces joined by dots are accepted iff each piece passes |
| Ipv4.LeadingZeroKeepsVerdict | client.py:35 | a zero in front of the first piece does not change the verdict (within the `int` length limit) |
| Ipv4.ZeroPaddingKeepsVerdict | client.py:35 | zeros in front of any of the four pieces do not change the verdict (within the `int` length limit) |
| Ipv4.SentinelRejected | client.py:48-50 | the sentinel "0" stored after a failed connection is not a valid address |
| Ipv4.CanonicalFormAccepted | client.py:30-37 | the canonical notation of any four values in 0..255 is accepted |
| Ipv4.TooFewPiecesExample | client.py:31-33 | "1.2.3" is rejected |
| Ipv4.TooManyPiecesExample | client.py:31-33 | "1.2.3.4.5" is rejected |
| Ipv4.MalformedPieceExamples | client.py:35 | "1..2.3", "-1.2.3.4" and "1.2.3.4 " are rejected |
| Ipv4.OutOfRangeExample | client.py:35 | "256.0.0.1" is rejected |
| Ipv4.LeadingZerosExample | client.py:35 | "001.002.0.255" is accepted |
| ClientLoop.ValidOnes | client.py:44 | every kept line passes the address test and is one of the typed lines, and there are no more of them than typed lines |
| ClientLoop.ValidOnesCount | client.py:44 | each line that passes the address test is kept exactly as often as it was typed, and each line that fails it is dropped |
| ClientLoop.ValidOnesAppend | client.py:43-44 | filtering lines typed in two parts filters each part and keeps them in typing order |
| ClientLoop.Loop | client.py:43-50 | attempts are a prefix of the valid typed addresses, in order. Every attempt but the last failed. The loop stops as Connected iff the last attempt succeeded. When input runs out, every valid address was tried. It stops for lack of outcomes only with a valid typed address still untried |
| ClientLoop.Start | client.py:40-50 | from the first prompt on, for any test that rejects the sentinel: the same guarantees as RunClient |
| ClientLoop.RunClient | client.py:40-50 | from the first prompt on: only valid addresses are tried, in order, each typed line at most once, never more attempts than typed lines or outcomes. Every attempt but the last failed, and the loop stops at the first success. It stops for lack of outcomes only with a valid typed address still untried |
| ClientLoop.FailedAttemptReprompts | client.py:46-50 | after a failed connection the next attempt is taken from the next typed line, so the failed address is not retried without new input (typing it again retries it) |

## Left out

- `tcp_communication` (client.py:4-27): socket connect with a 5-second timeout, the `input`/`sendall`/`recv` loop and exception handling. These are I/O over the socket library. In `ClientLoop` the whole call is one boolean outcome per attempt. Its `except` clause catches only socket errors and timeouts, so an `EOFError` or `KeyboardInterrupt` from the `input()` inside it (client.py:14) ends `main` with that exception; the model has no such outcome.
- The prompts and `print` output of `main`, and the blocking `input()` call. Typed lines are a finite sequence, so the model's loop can end with `OutOfInput` or `OutOfOutcomes`. At `OutOfInput` the real program waits at `input()` (client.py:42, :50); if standard input is closed, `input()` raises `EOFError` and `main` ends with that exception. The model represents both as `OutOfInput`.
- Decimal.Value: has no length limit. Since CPython 3.11 (and 3.10.7, 3.9.14, 3.8.14, 3.7.14), `int()` on a string of more than 4300 digits raises `ValueError` unless the limit is changed with `sys.set_int_max_str_digits`; leading zeros count toward the limit. `is_valid_ip` does not catch it, so a piece such as 4300 zeros followed by "1" crashes the check where the model accepts. The statements about values, LeadingZeroKeepsVerdict and ZeroPaddingKeepsVerdict hold only for pieces within that limit.
- server.py (`handle_client`, `start_server`): a threaded TCP echo server with logging. It holds no state or logic beyond sending an acknowledgment.
- Python `str.isdigit` on non-ASCII characters. Some Unicode digits pass `isdigit`: Arabic-Indic digits, which `int` also accepts, and superscripts such as '²', on which `int` raises `ValueError`. The model reads `isdigit` as ASCII `'0'..'9'` only.
- The Battleship rules engine, the session state machine, the message codec and the client dispatcher. None of them is in the client or server source, so there is no code to model them against.
