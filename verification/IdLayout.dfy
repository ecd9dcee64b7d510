/** Where every bit of an ID comes from, and what is an ID (src/shared/id/value.ts, src/shared/id/v7.ts; RFC 9562). */
module IdLayout {
  import opened Prelude
  import opened Ids
  import V = V7

  /** Digits have the value of their place, in either case. */
  lemma DigitIs(n: int)
    requires 0 <= n < 16
    ensures DigitValue("0123456789abcdef"[n]) == n && DigitValue("0123456789ABCDEF"[n]) == n && Digit(n) == "0123456789abcdef"[n]
  {
  }

  lemma HexDigitIs(c: char)
    ensures IsHexDigit(c) <==> c in "0123456789abcdefABCDEF"
  {
    var all := "0123456789abcdefABCDEF";
    if '0' <= c <= '9' { assert all[c as int - 48] == c; }
    if 'a' <= c <= 'f' { assert all[c as int - 97 + 10] == c; }
    if 'A' <= c <= 'F' { assert all[c as int - 65 + 16] == c; }
  }

  /** A text is an ID exactly if it is five dashed groups of hexadecimal digits whose fourth starts with 8, 9, a or b; it is
      kept in lower case. */
  lemma ParsedIff(s: string)
    ensures Parse(s).Ok? <==>
      && |s| == 36 && s[8] == '-' && s[13] == '-' && s[18] == '-' && s[23] == '-' && s[19] in "89abAB"
      && forall i | 0 <= i < 36 && i !in {8, 13, 18, 23} :: s[i] in "0123456789abcdefABCDEF"
    ensures Parse(s).Ok? ==>
      && |Parse(s).value| == 36
      && forall i | 0 <= i < 36 ::
           Parse(s).value[i] == if s[i] in "ABCDEF" then "abcdef"[s[i] as int - 65] else s[i]
  {
    forall i | 0 <= i < |s| ensures IsHexDigit(s[i]) <==> s[i] in "0123456789abcdefABCDEF" {
      HexDigitIs(s[i]);
    }
    assert forall c: char | c in "89abAB" :: IsHexDigit(c);
    if Parse(s).Ok? {
      forall i | 0 <= i < 36 ensures Parse(s).value[i] == if s[i] in "ABCDEF" then "abcdef"[s[i] as int - 65] else s[i] {
        LowerIs(s[i]);
      }
    }
  }

  lemma LowerIs(c: char)
    requires IsHexDigit(c) || c == '-'
    ensures LowerChar(c) == if c in "ABCDEF" then "abcdef"[c as int - 65] else c
  {
    if 'A' <= c <= 'F' { assert "ABCDEF"[c as int - 65] == c; }
  }

  /** The stamp is the twelve digits before the version, the counter the three after it, and the random bytes fill the rest:
      the first with its two top bits replaced by 10. */
  lemma FieldsOf(milliseconds: int, counter: int, suffix: seq<Byte>)
    requires 0 <= milliseconds < 0x1000000000000 && 0 <= counter < 4096 && |suffix| == 8
    ensures
      var id := EncodeV7(milliseconds, counter, suffix);
      && |id| == 36
      && ParseInt16(id[..8] + id[9..13]) == milliseconds
      && ParseInt16(id[14..18]) == 0x7000 + counter && id[14] == '7'
      && var tail := id[19..23] + id[24..];
      && |tail| == 16
      && forall j | 0 <= j < 8 ::
           ParseInt16(tail[2 * j..2 * j + 2]) == if j == 0 then suffix[0] % 64 + 128 else suffix[j]
  {
    EncodeV7Layout(milliseconds, counter, suffix);
    Pow16Values();
    FixedWidthHex(milliseconds, 12);
    SequenceHex(counter);
    var id := EncodeV7(milliseconds, counter, suffix);
    assert id[14] == id[14..18][0];
    TailBytes(suffix);
    var tail := id[19..23] + id[24..];
    assert tail == TailHex(suffix);
    forall j | 0 <= j < 8 ensures ParseInt16(tail[2 * j..2 * j + 2]) == if j == 0 then suffix[0] % 64 + 128 else suffix[j] {
      assert ParseInt16(TailHex(suffix)[2 * j..2 * j + 2]) == TailByte(suffix, j);
    }
  }

  /** Byte k of the tail: the first one carries the variant. */
  function TailByte(suffix: seq<Byte>, k: nat): Byte
    requires k < |suffix| == 8
  {
    if k == 0 then suffix[0] % 64 + 128 else suffix[k]
  }

  function Upto(suffix: seq<Byte>, k: nat): string
    requires k <= |suffix| == 8
  {
    if k == 0 then "" else Upto(suffix, k - 1) + ByteHex(TailByte(suffix, k - 1))
  }

  lemma {:induction false} UptoBytes(suffix: seq<Byte>, k: nat)
    requires k <= |suffix| == 8
    ensures |Upto(suffix, k)| == 2 * k
    ensures forall j | 0 <= j < k :: ParseInt16(Upto(suffix, k)[2 * j..2 * j + 2]) == TailByte(suffix, j)
    decreases k
  {
    if k > 0 {
      UptoBytes(suffix, k - 1);
      ByteShape(TailByte(suffix, k - 1));
      var before, last := Upto(suffix, k - 1), ByteHex(TailByte(suffix, k - 1));
      forall j | 0 <= j < k ensures ParseInt16((before + last)[2 * j..2 * j + 2]) == TailByte(suffix, j) {
        if j < k - 1 {
          assert (before + last)[2 * j..2 * j + 2] == before[2 * j..2 * j + 2];
        } else {
          assert (before + last)[2 * j..2 * j + 2] == last;
        }
      }
    }
  }

  lemma UptoNext(suffix: seq<Byte>, k: nat)
    requires 1 <= k < |suffix| == 8
    ensures Upto(suffix, k + 1) == Upto(suffix, k) + ByteHex(suffix[k])
  {
  }

  lemma UptoFour(suffix: seq<Byte>)
    requires |suffix| == 8
    ensures Upto(suffix, 4)
         == ByteHex(suffix[0] % 64 + 128) + ByteHex(suffix[1]) + ByteHex(suffix[2]) + ByteHex(suffix[3])
  {
    assert Upto(suffix, 1) == "" + ByteHex(suffix[0] % 64 + 128);
    UptoNext(suffix, 1);
    UptoNext(suffix, 2);
    UptoNext(suffix, 3);
  }

  lemma UptoIsTail(suffix: seq<Byte>)
    requires |suffix| == 8
    ensures Upto(suffix, 8) == TailHex(suffix)
  {
    UptoFour(suffix);
    UptoNext(suffix, 4);
    UptoNext(suffix, 5);
    UptoNext(suffix, 6);
    UptoNext(suffix, 7);
  }

  lemma TailBytes(suffix: seq<Byte>)
    requires |suffix| == 8
    ensures |TailHex(suffix)| == 16
    ensures forall j | 0 <= j < 8 :: ParseInt16(TailHex(suffix)[2 * j..2 * j + 2]) == TailByte(suffix, j)
  {
    UptoBytes(suffix, 8);
    UptoIsTail(suffix);
  }

  // ----- One call of the generator -----

  /** A call fails exactly for a clock out of range, a spent counter, or a random source that throws, in this order. */
  lemma CallFailsIff(s: V.State, call: V.Call)
    requires s.Valid() && call.Valid()
    ensures
      var r := V.Next(s, call).0;
      var outside := call.reading.InvalidDate? || call.reading.ms < 0 || call.reading.ms > 0xFFFFFFFFFFFF;
      && (r == Err(TimeRange) <==> outside)
      && (r == Err(Exhausted) <==> !outside && s.last.Some? && call.reading.ms <= s.last.value && s.counter == 4095)
      && (r.Ok? <==> !outside && !(s.last.Some? && call.reading.ms <= s.last.value && s.counter == 4095) && call.entropy.Some?)
      && (r.Err? && r.error != TimeRange && r.error != Exhausted ==> r.error == EntropyUnavailable)
  {
  }

  /** A later millisecond starts at the low eleven of the first sixteen random bits; otherwise the counter goes up by one in
      the last millisecond; the other eight bytes are the suffix. */
  lemma CallIssues(s: V.State, call: V.Call)
    requires s.Valid() && call.Valid() && V.Next(s, call).0.Ok?
    ensures
      var random := call.entropy.value;
      var (r, next) := V.Next(s, call);
      && r.value.suffix == random[2..10]
      && next == V.State(Some(r.value.milliseconds), r.value.counter)
      && if s.last.None? || s.last.value < call.reading.ms
         then r.value.milliseconds == call.reading.ms && r.value.counter == (random[0] as int * 256 + random[1] as int) % 2048
         else r.value.milliseconds == s.last.value && r.value.counter == s.counter + 1
  {
  }
}
