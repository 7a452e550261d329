/** Shared vocabulary of the relay model: optional values, connection and room
    identifiers, and the already-parsed JSON values the relay copies without
    looking inside them. */
module Common {

  /** Stands for `null` / `undefined` results of the source's lookups. */
  datatype Option<+T> = None | Some(value: T)

  /** A connection identifier (`crypto.randomUUID()` in the source); every
      connection gets a fresh one, supplied to the model by its caller. */
  type ConnId = string

  /** A room identifier, chosen by the host that creates the room. */
  type RoomId = string

  /** A field of an inbound JSON message that the relay forwards unchanged. */
  datatype Value =
    | Undefined
    | Str(s: string)
    | Num(n: int)
    | Other(raw: string)

  /** The decimal text of a natural number, as `String(n)` produces it. */
  function DecimalText(n: nat): string
    decreases n
  {
    if n < 10 then ["0123456789"[n]]
    else DecimalText(n / 10) + ["0123456789"[n % 10]]
  }

  predicate IsDigit(ch: char)
  {
    '0' <= ch <= '9'
  }

  /** The number a string of decimal digits denotes, read left to right. */
  function DecimalValue(t: string): int
  {
    if |t| == 0 then 0
    else DecimalValue(t[..|t| - 1]) * 10 + (t[|t| - 1] as int - '0' as int)
  }

  /** `String(n)` is a non-empty run of decimal digits without a leading
      zero (except for 0 itself), and it reads back as `n`. */
  lemma {:induction false} DecimalTextRoundTrip(n: nat)
    ensures |DecimalText(n)| > 0
    ensures forall i :: 0 <= i < |DecimalText(n)| ==> IsDigit(DecimalText(n)[i])
    ensures DecimalText(n)[0] == '0' ==> n == 0
    ensures DecimalValue(DecimalText(n)) == n
  {
    var t := DecimalText(n);
    if n < 10 {
      DigitChar(n);
      assert t[..0] == [];
    } else {
      DecimalTextRoundTrip(n / 10);
      DigitChar(n % 10);
      var u := DecimalText(n / 10);
      assert t == u + ["0123456789"[n % 10]];
      assert t[..|t| - 1] == u;
      assert t[0] == u[0];
    }
  }

  /** The digit character at position `d` of "0123456789" stands for `d`. */
  lemma DigitChar(d: nat)
    requires d < 10
    ensures IsDigit("0123456789"[d])
    ensures "0123456789"[d] as int - '0' as int == d
    ensures "0123456789"[d] == '0' <==> d == 0
  {
    var digits := "0123456789";
    assert digits[0] == '0' && digits[1] == '1' && digits[2] == '2' && digits[3] == '3' && digits[4] == '4';
    assert digits[5] == '5' && digits[6] == '6' && digits[7] == '7' && digits[8] == '8' && digits[9] == '9';
  }
}
