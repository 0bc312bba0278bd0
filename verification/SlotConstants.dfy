/** The constants of the two programs, which are suitable for the protocol. */
module SlotConstants {
  import opened SlotProtocol
  import opened SlotSafety

  const SIZE := 4096
  const MESSAGE_SIZE := 16
  const FREE := "freeeee"
  const MESSAGE := "OSisFUN"
  const ITERATIONS := 1000

  function Digit(d: nat): char
    requires d < 10
  {
    "0123456789"[d]
  }

  /** %d of a number that is not negative. */
  function Decimal(n: nat): (digits: string)
    ensures digits != "" && forall k :: 0 <= k < |digits| ==> '0' <= digits[k] <= '9'
  {
    if n < 10 then [Digit(n)] else Decimal(n / 10) + [Digit(n % 10)]
  }

  function Number(digits: string): int {
    if digits == "" then 0
    else 10 * Number(digits[..|digits| - 1]) + (digits[|digits| - 1] as int - '0' as int)
  }

  lemma DigitValue(d: nat)
    requires d < 10
    ensures Digit(d) as int - '0' as int == d
  {
  }

  lemma {:induction false} NumberOfDecimal(n: nat)
    ensures Number(Decimal(n)) == n
  {
    if n < 10 {
      DigitValue(n);
      assert Decimal(n)[..0] == "";
    } else {
      NumberOfDecimal(n / 10);
      DigitValue(n % 10);
      assert Decimal(n)[..|Decimal(n)| - 1] == Decimal(n / 10);
    }
  }

  lemma DecimalShort(n: nat)
    requires n < 1000
    ensures |Decimal(n)| <= 3
  {
    assert |Decimal(n / 100)| == 1;
    if 100 <= n {
      assert |Decimal(n / 10)| == 2;
    }
  }

  /** snprintf into a buffer of the given size: the text is cut to leave room for the NUL. */
  function Snprintf(text: string, size: nat): string
    requires 0 < size
  {
    (if |text| < size then text else text[..size - 1]) + [NUL]
  }

  function Message(n: nat): string {
    Snprintf(MESSAGE + " " + Decimal(n), MESSAGE_SIZE)
  }

  function Program(): Settings {
    Settings(SIZE / MESSAGE_SIZE, MESSAGE_SIZE, FREE + [NUL], seq(ITERATIONS, n requires 0 <= n => Message(n)))
  }

  lemma MessageShape(n: nat)
    requires n < ITERATIONS
    ensures Message(n) == MESSAGE + " " + Decimal(n) + [NUL] && |Message(n)| <= MESSAGE_SIZE
    ensures Terminated(Message(n))
    ensures forall k :: 0 <= k <= |FREE| ==> Message(n)[k] != (FREE + [NUL])[k]
  {
    DecimalShort(n);
    assert forall k :: 0 <= k < |MESSAGE| ==> MESSAGE[k] != NUL;
    assert forall k :: 0 <= k < |MESSAGE + " "| ==> Message(n)[k] == (MESSAGE + " ")[k];
    assert forall k :: 0 <= k <= |FREE| ==> (MESSAGE + " ")[k] != (FREE + [NUL])[k];
  }

  /** Marker and messages differ in each of the marker's eight bytes, and all fit their slots. */
  lemma ProgramSuitable()
    ensures Suitable(Program())
    ensures Program().slots == 256 && Program().width == 16 && Program().mark == "freeeee" + [NUL]
    ensures |Program().texts| == 1000
    ensures forall n :: 0 <= n < 1000 ==> Program().texts[n] == "OSisFUN " + Decimal(n) + [NUL]
  {
    forall n | 0 <= n < ITERATIONS
      ensures Terminated(Program().texts[n]) && |Program().texts[n]| <= MESSAGE_SIZE
      ensures |Program().mark| <= |Program().texts[n]|
      ensures Program().texts[n] == "OSisFUN " + Decimal(n) + [NUL]
      ensures forall k :: 0 <= k <= |FREE| ==> Program().texts[n][k] != Program().mark[k]
    {
      MessageShape(n);
    }
    assert forall k :: 0 <= k < |FREE| ==> FREE[k] != NUL;
  }

  /** Different iterations send different messages. */
  lemma MessagesDistinct(m: nat, n: nat)
    requires m < ITERATIONS && n < ITERATIONS && Printed(Program(), m) == Printed(Program(), n)
    ensures m == n
  {
    MessageShape(m);
    MessageShape(n);
    assert Printed(Program(), m) == MESSAGE + " " + Decimal(m);
    assert Printed(Program(), n) == MESSAGE + " " + Decimal(n);
    assert Printed(Program(), m)[|MESSAGE| + 1..] == Decimal(m);
    assert Printed(Program(), n)[|MESSAGE| + 1..] == Decimal(n);
    NumberOfDecimal(m);
    NumberOfDecimal(n);
  }

  /** The consumer never prints the same line twice, and prints nothing but lines the producer sent. */
  lemma NoDuplicates(acts: seq<Action>, s: State)
    requires Run(Program(), acts, s)
    ensures |s.received| <= |s.sent|
    ensures forall k :: 0 <= k < |s.received| ==>
              s.sent[k] < 1000 && s.received[k] == "OSisFUN " + Decimal(s.sent[k])
    ensures forall j, k :: 0 <= j < k < |s.received| ==> s.received[j] != s.received[k]
  {
    ProgramSuitable();
    ReceivedIsPrefix(Program(), acts, s);
    Safety(Program(), acts, s);
    forall k | 0 <= k < |s.received|
      ensures s.sent[k] < 1000 && s.received[k] == "OSisFUN " + Decimal(s.sent[k])
    {
      MessageShape(s.sent[k]);
    }
    forall j, k | 0 <= j < k < |s.received|
      ensures s.received[j] != s.received[k]
    {
      if s.received[j] == s.received[k] {
        MessagesDistinct(s.sent[j], s.sent[k]);
      }
    }
  }
}
