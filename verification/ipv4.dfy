/** The client's IPv4 dotted-quad check, `is_valid_ip` in client.py: the text
    is split on '.', there must be exactly four pieces, and each piece must be
    a non-empty string of decimal digits whose value lies in 0..255. */
module Ipv4 {
  import opened Text
  import opened Decimal

  const Dot: char := '.'

  /** The test applied to each piece by the loop of `is_valid_ip`; the lower
      bound is kept as written even though it cannot fail. */
  predicate PieceOk(piece: string) {
    IsDigitString(piece) && 0 <= Value(piece) <= 255
  }

  /** A piece passes exactly when it is the decimal notation of a number up
      to 255, with any number of zeros in front. */
  lemma PieceOkIffPadded(piece: string)
    ensures PieceOk(piece) <==> exists z, n :: Zeros(z) && n <= 255 && piece == Padded(z, n)
  {
    DigitStringIffPadded(piece);
  }

  /** The loop over the pieces, stopping at the first one that fails. */
  function AllPiecesOk(pieces: seq<string>): (ok: bool)
    ensures ok ==> forall i :: 0 <= i < |pieces| ==> PieceOk(pieces[i])
    ensures !ok ==> exists i :: 0 <= i < |pieces| && !PieceOk(pieces[i])
    decreases |pieces|
  {
    if |pieces| == 0 then true
    else if !PieceOk(pieces[0]) then false
    else AllPiecesOk(pieces[1..])
  }

  /** `is_valid_ip`: exactly four pieces, each of which passes PieceOk. It
      accepts exactly the dotted quads of octets. */
  function IsValidIp(s: string): (ok: bool)
    ensures ok <==> ValidQuad(s)
  {
    var pieces := Split(s, Dot);
    PiecesIffQuad(s);
    if |pieces| != 4 then false
    else AllPiecesOk(pieces)
  }

  /** The same check written as the source writes it: a loop over the pieces
      with an early `return False`. */
  method CheckIp(s: string) returns (ok: bool)
    ensures ok <==> ValidQuad(s)
    ensures ok == IsValidIp(s)
  {
    var pieces := Split(s, Dot);
    if |pieces| != 4 {
      assert !IsValidIp(s);
      return false;
    }
    var i := 0;
    while i < |pieces|
      invariant 0 <= i <= |pieces|
      invariant forall j :: 0 <= j < i ==> PieceOk(pieces[j])
    {
      if !(IsDigitString(pieces[i]) && 0 <= Value(pieces[i]) <= 255) {
        assert !IsValidIp(s);
        return false;
      }
      i := i + 1;
    }
    assert IsValidIp(s);
    return true;
  }

  // ----- specification: a valid address is four octets joined by dots -----

  /** A textual octet: one or more decimal digits with value at most 255.
      Leading zeros are allowed. */
  ghost predicate Octet(t: string) {
    IsDigitString(t) && Value(t) <= 255
  }

  function Dotted(a: string, b: string, c: string, d: string): string {
    a + [Dot] + b + [Dot] + c + [Dot] + d
  }

  /** `s` is four octets written with a dot between neighbours. */
  ghost predicate ValidQuad(s: string) {
    exists a, b, c, d :: Octet(a) && Octet(b) && Octet(c) && Octet(d)
                         && s == Dotted(a, b, c, d)
  }

  /** The four-octet notation is the dot-join of the four pieces. */
  lemma DottedIsJoin(a: string, b: string, c: string, d: string)
    ensures Dotted(a, b, c, d) == Join([a, b, c, d], Dot)
  {
    var p := [a, b, c, d];
    assert p[1..] == [b, c, d];
    assert p[1..][1..] == [c, d];
    assert p[1..][1..][1..] == [d];
    assert Join([d], Dot) == d;
    assert Join([c, d], Dot) == c + [Dot] + d;
    assert Join([b, c, d], Dot) == b + [Dot] + (c + [Dot] + d);
    assert Join(p, Dot) == a + [Dot] + (b + [Dot] + (c + [Dot] + d));
  }

  /** Four digit strings joined by dots hold nothing but digits and dots. */
  lemma DottedChars(a: string, b: string, c: string, d: string)
    requires AllDigits(a) && AllDigits(b) && AllDigits(c) && AllDigits(d)
    ensures forall i :: 0 <= i < |Dotted(a, b, c, d)| ==>
              IsDigit(Dotted(a, b, c, d)[i]) || Dotted(a, b, c, d)[i] == Dot
  {
  }

  /** Four pieces that all pass are exactly a dotted quad of octets. */
  lemma PiecesIffQuad(s: string)
    ensures (|Split(s, Dot)| == 4 && AllPiecesOk(Split(s, Dot))) <==> ValidQuad(s)
  {
    var p := Split(s, Dot);
    if |p| == 4 && AllPiecesOk(p) {
      QuadFromPieces(s);
    }
    if ValidQuad(s) {
      PiecesFromQuad(s);
    }
  }

  /** Four passing pieces, joined again by their dots, are a dotted quad. */
  lemma QuadFromPieces(s: string)
    requires |Split(s, Dot)| == 4 && AllPiecesOk(Split(s, Dot))
    ensures ValidQuad(s)
  {
    var p := Split(s, Dot);
    JoinSplit(s, Dot);
    assert p == [p[0], p[1], p[2], p[3]];
    DottedIsJoin(p[0], p[1], p[2], p[3]);
    assert Octet(p[0]) && Octet(p[1]) && Octet(p[2]) && Octet(p[3]);
    assert s == Dotted(p[0], p[1], p[2], p[3]);
  }

  /** A dotted quad of octets splits back into its four octets, all passing. */
  lemma PiecesFromQuad(s: string)
    requires ValidQuad(s)
    ensures |Split(s, Dot)| == 4 && AllPiecesOk(Split(s, Dot))
  {
    var a, b, c, d :| Octet(a) && Octet(b) && Octet(c) && Octet(d)
                      && s == Dotted(a, b, c, d);
    DottedIsJoin(a, b, c, d);
    var q := [a, b, c, d];
    assert forall i :: 0 <= i < 4 ==> Octet(q[i]);
    assert forall i :: 0 <= i < 4 ==> Dot !in q[i] by {
      forall i | 0 <= i < 4
        ensures Dot !in q[i]
      {
        assert AllDigits(q[i]);
      }
    }
    SplitJoin(q, Dot);
    assert Split(s, Dot) == q;
    assert AllPiecesOk(q);
  }

  // ----- what `is_valid_ip` rejects and accepts -----

  /** In four digit strings joined by dots, each dot sits between two digits:
      never first, never last, never two in a row. */
  lemma DottedShape(a: string, b: string, c: string, d: string, k: int)
    requires IsDigitString(a) && IsDigitString(b) && IsDigitString(c) && IsDigitString(d)
    requires 0 <= k < |Dotted(a, b, c, d)| && Dotted(a, b, c, d)[k] == Dot
    ensures 0 < k < |Dotted(a, b, c, d)| - 1
    ensures IsDigit(Dotted(a, b, c, d)[k - 1]) && IsDigit(Dotted(a, b, c, d)[k + 1])
  {
  }

  /** A text whose number of dots is not three does not split into four
      pieces, so it is rejected: "1.2.3" and "1.2.3.4.5" both fail. */
  lemma WrongDotCountRejected(s: string)
    requires Count(s, Dot) != 3
    ensures !IsValidIp(s)
  {
    SplitCount(s, Dot);
  }

  /** Any character other than a digit or a dot (a sign, a space, a letter)
      makes the text invalid. */
  lemma StrayCharacterRejected(s: string, k: int)
    requires 0 <= k < |s| && !IsDigit(s[k]) && s[k] != Dot
    ensures !IsValidIp(s)
  {
    if IsValidIp(s) {
      var a, b, c, d :| Octet(a) && Octet(b) && Octet(c) && Octet(d)
                        && s == Dotted(a, b, c, d);
      DottedChars(a, b, c, d);
      assert false;
    }
  }

  /** An empty piece makes the text invalid: a leading dot, a trailing dot or
      two dots in a row, as in "1..2.3". */
  lemma EmptyPieceRejected(s: string, k: int)
    requires 0 <= k < |s| && s[k] == Dot
    requires k == 0 || k == |s| - 1 || s[k + 1] == Dot
    ensures !IsValidIp(s)
  {
    if IsValidIp(s) {
      var a, b, c, d :| Octet(a) && Octet(b) && Octet(c) && Octet(d)
                        && s == Dotted(a, b, c, d);
      DottedShape(a, b, c, d, k);
      assert false;
    }
  }

  /** A piece made of digits whose value exceeds 255 ("256") makes the text
      invalid, however many leading zeros the other pieces carry. */
  lemma OutOfRangeRejected(s: string, i: int)
    requires 0 <= i < |Split(s, Dot)|
    requires IsDigitString(Split(s, Dot)[i]) && Value(Split(s, Dot)[i]) > 255
    ensures !IsValidIp(s)
  {
  }

  /** The same in terms of the text: a leading run of digits worth more than
      255 that ends at a dot, or at the end, gets the text rejected. */
  lemma FirstPieceOutOfRange(piece: string, rest: string)
    requires IsDigitString(piece) && Value(piece) > 255
    requires |rest| == 0 || rest[0] == Dot
    ensures !IsValidIp(piece + rest)
  {
    FirstPiece(piece, rest, Dot);
    OutOfRangeRejected(piece + rest, 0);
  }

  /** For a digit string the lower bound `0 <=` of the source cannot fail, so a
      piece passes exactly when it is an octet. */
  lemma LowerBoundRedundant(piece: string)
    ensures PieceOk(piece) <==> Octet(piece)
  {
  }

  /** A zero put in front of the first piece does not change the verdict
      (within CPython's length limit for `int`), since a
      piece is judged by its numeric value and not its text: "001.002.0.255"
      is accepted like "1.2.0.255". */
  lemma LeadingZeroKeepsVerdict(s: string)
    requires |s| > 0 && s[0] != Dot
    ensures IsValidIp(['0'] + s) <==> IsValidIp(s)
  {
    var p := Split(s, Dot);
    var z := ['0'] + s;
    assert z[1..] == s;
    var q := Split(z, Dot);
    assert q == [['0'] + p[0]] + p[1..];
    SplitHead(s, Dot);
    assert |p[0]| > 0;
    if AllDigits(p[0]) {
      LeadingZeros(['0'], p[0]);
    } else {
      var j :| 0 <= j < |p[0]| && !IsDigit(p[0][j]);
      assert q[0][j + 1] == p[0][j];
    }
    assert PieceOk(q[0]) <==> PieceOk(p[0]);
    if |p| == 4 {
      assert q[1..] == p[1..];
    }
  }

  /** Zeros in front of a non-empty piece never change whether it passes. */
  lemma PadPiece(z: string, piece: string)
    requires Zeros(z) && |piece| > 0
    ensures PieceOk(z + piece) <==> PieceOk(piece)
  {
    if AllDigits(piece) {
      LeadingZeros(z, piece);
    } else {
      var j :| 0 <= j < |piece| && !IsDigit(piece[j]);
      assert (z + piece)[|z| + j] == piece[j];
    }
  }

  /** Four dot-free pieces joined by dots are accepted exactly when each
      piece passes. */
  lemma VerdictOfDotted(a: string, b: string, c: string, d: string)
    requires Dot !in a && Dot !in b && Dot !in c && Dot !in d
    ensures IsValidIp(Dotted(a, b, c, d)) <==> PieceOk(a) && PieceOk(b) && PieceOk(c) && PieceOk(d)
  {
    var p := [a, b, c, d];
    DottedIsJoin(a, b, c, d);
    SplitJoin(p, Dot);
    assert p[1..] == [b, c, d] && p[1..][1..] == [c, d] && p[1..][1..][1..] == [d];
    assert [d][1..] == [];
    assert AllPiecesOk([d]) == PieceOk(d);
    assert AllPiecesOk([c, d]) == (PieceOk(c) && PieceOk(d));
    assert AllPiecesOk([b, c, d]) == (PieceOk(b) && PieceOk(c) && PieceOk(d));
    assert IsValidIp(Dotted(a, b, c, d)) == AllPiecesOk(p);
  }

  /** Zeros put in front of any of the four pieces do not change the verdict
      (within CPython's length limit for `int`),
      since a piece is judged by its numeric value and not its text. */
  lemma ZeroPaddingKeepsVerdict(a: string, b: string, c: string, d: string,
                                za: string, zb: string, zc: string, zd: string)
    requires Zeros(za) && Zeros(zb) && Zeros(zc) && Zeros(zd)
    requires |a| > 0 && |b| > 0 && |c| > 0 && |d| > 0
    requires Dot !in a && Dot !in b && Dot !in c && Dot !in d
    ensures IsValidIp(Dotted(za + a, zb + b, zc + c, zd + d)) <==> IsValidIp(Dotted(a, b, c, d))
  {
    assert Dot !in za && Dot !in zb && Dot !in zc && Dot !in zd;
    VerdictOfDotted(a, b, c, d);
    VerdictOfDotted(za + a, zb + b, zc + c, zd + d);
    PadPiece(za, a);
    PadPiece(zb, b);
    PadPiece(zc, c);
    PadPiece(zd, d);
  }

  /** The sentinel "0" that `main` stores after a failed connection is not a
      valid address. */
  lemma SentinelRejected()
    ensures !IsValidIp("0")
  {
  }

  /** Every quadruple of byte values has a canonical textual form that the
      check accepts. */
  lemma CanonicalFormAccepted(a: nat, b: nat, c: nat, d: nat)
    requires a <= 255 && b <= 255 && c <= 255 && d <= 255
    ensures IsValidIp(Dotted(ToDecimal(a), ToDecimal(b), ToDecimal(c), ToDecimal(d)))
  {
    var ta, tb, tc, td := ToDecimal(a), ToDecimal(b), ToDecimal(c), ToDecimal(d);
    assert Octet(ta) && Octet(tb) && Octet(tc) && Octet(td);
    var s := Dotted(ta, tb, tc, td);
    assert ValidQuad(s);
  }

  /** Three pieces are too few. */
  lemma TooFewPiecesExample()
    ensures !IsValidIp("1.2.3")
  {
  }

  /** Five pieces are too many. */
  lemma TooManyPiecesExample()
    ensures !IsValidIp("1.2.3.4.5")
  {
  }

  /** An empty piece, a sign, a trailing space. */
  lemma MalformedPieceExamples()
    ensures !IsValidIp("1..2.3") && !IsValidIp("-1.2.3.4") && !IsValidIp("1.2.3.4 ")
  {
    EmptyPieceRejected("1..2.3", 1);
    StrayCharacterRejected("-1.2.3.4", 0);
    StrayCharacterRejected("1.2.3.4 ", 7);
  }

  /** A piece above 255. */
  lemma OutOfRangeExample()
    ensures !IsValidIp("256.0.0.1")
  {
    assert Value("256") == 256 by {
      assert "256"[..2] == "25" && "25"[..1] == "2" && "2"[..0] == "";
    }
    FirstPieceOutOfRange("256", ".0.0.1");
    assert "256" + ".0.0.1" == "256.0.0.1";
  }

  /** Leading zeros are accepted. */
  lemma LeadingZerosExample()
    ensures IsValidIp("001.002.0.255")
  {
    assert "001"[..2] == "00" && "00"[..1] == "0" && "0"[..0] == "";
    assert "002"[..2] == "00";
    assert "255"[..2] == "25" && "25"[..1] == "2" && "2"[..0] == "";
    assert Octet("001") && Octet("002") && Octet("0") && Octet("255");
    assert "001.002.0.255" == Dotted("001", "002", "0", "255");
  }
}
