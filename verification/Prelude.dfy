/** Shared value types: optional values, results and dates as the source passes them around. */
module Prelude {
  datatype Option<+T> = None | Some(value: T)

  datatype Result<+T, +E> = Ok(value: T) | Err(error: E)

  /** A JavaScript `Date`: either invalid (its time is NaN) or an integral millisecond time. */
  datatype Date = InvalidDate | At(ms: int)

  type Byte = b: int | 0 <= b < 256

  /** A JavaScript string as its UTF-16 code units, where those matter. */
  type Text = seq<int>

  predicate IsHigh(unit: int) { 0xD800 <= unit <= 0xDBFF }

  predicate IsLow(unit: int) { 0xDC00 <= unit <= 0xDFFF }

  /** `Number.MAX_SAFE_INTEGER`. */
  const MAX_SAFE_INTEGER: int := 9007199254740991

  function Max(a: int, b: int): int { if a < b then b else a }

  function Min(a: int, b: int): int { if a < b then a else b }

  predicate IsLowerLetter(c: char) { 'a' <= c <= 'z' }

  predicate IsDigit(c: char) { '0' <= c <= '9' }

  /** `/^[a-z][a-z0-9_.-]{0,most - 1}$/`, the shape of kinds, subject types and failure codes. */
  predicate IsCode(s: string, most: nat) {
    && 1 <= |s| <= most
    && IsLowerLetter(s[0])
    && forall i | 1 <= i < |s| :: IsLowerLetter(s[i]) || IsDigit(s[i]) || s[i] in "_.-"
  }

  /** `/^[a-z][a-z0-9_.-]{0,most - 1}$/`, letter by letter. */
  ghost predicate IsWord(s: string, most: nat) {
    && 1 <= |s| <= most && s[0] in "abcdefghijklmnopqrstuvwxyz"
    && forall i | 0 < i < |s| :: s[i] in "abcdefghijklmnopqrstuvwxyz0123456789_.-"
  }

  lemma LetterIs(c: char)
    ensures IsLowerLetter(c) <==> c in "abcdefghijklmnopqrstuvwxyz"
    ensures IsDigit(c) <==> c in "0123456789"
  {
    var letters, digits := "abcdefghijklmnopqrstuvwxyz", "0123456789";
    if IsLowerLetter(c) { assert letters[c as int - 97] == c; }
    if IsDigit(c) { assert digits[c as int - 48] == c; }
  }

  lemma WordIs(s: string, most: nat)
    ensures IsCode(s, most) <==> IsWord(s, most)
  {
    var letters, digits := "abcdefghijklmnopqrstuvwxyz", "0123456789";
    assert "abcdefghijklmnopqrstuvwxyz0123456789_.-" == letters + digits + "_.-";
    forall i | 0 <= i < |s| ensures IsLowerLetter(s[i]) <==> s[i] in letters ensures IsDigit(s[i]) <==> s[i] in digits {
      LetterIs(s[i]);
    }
  }

  lemma Associative<T>(a: seq<T>, b: seq<T>, c: seq<T>)
    ensures a + b + c == a + (b + c)
  {
  }

  // ----- Ordinal order of strings, as `<` compares them -----

  predicate StringLess(a: string, b: string) {
    if |b| == 0 then false
    else if |a| == 0 then true
    else if a[0] != b[0] then a[0] < b[0]
    else StringLess(a[1..], b[1..])
  }

  lemma {:induction false} StringLessTotal(a: string, b: string)
    ensures StringLess(a, b) || StringLess(b, a) || a == b
    ensures !(StringLess(a, b) && StringLess(b, a))
    ensures !StringLess(a, a)
    decreases |a|
  {
    if |a| > 0 {
      StringLessTotal(a[1..], a[1..]);
      if |b| > 0 && a[0] == b[0] {
        StringLessTotal(a[1..], b[1..]);
        assert a == [a[0]] + a[1..] && b == [b[0]] + b[1..];
      }
    }
  }

  lemma {:induction false} StringLessTransitive(a: string, b: string, c: string)
    requires StringLess(a, b) && StringLess(b, c)
    ensures StringLess(a, c)
    decreases |a|
  {
    if |a| > 0 && a[0] == b[0] == c[0] {
      StringLessTransitive(a[1..], b[1..], c[1..]);
    }
  }

  /** Where two sequences first differ, the first is smaller or has ended. */
  ghost predicate SmallerAt(a: string, b: string, k: nat) {
    k <= |a| && k < |b| && a[..k] == b[..k] && (k == |a| || a[k] < b[k])
  }

  /** One string is less than another exactly if it is a proper prefix, or smaller where they first differ. */
  lemma {:induction false} StringLessIs(a: string, b: string)
    ensures StringLess(a, b) <==> exists k: nat :: SmallerAt(a, b, k)
    decreases |a|
  {
    if b != "" {
      if a == "" {
        assert SmallerAt(a, b, 0);
      } else if a[0] != b[0] {
        if a[0] < b[0] { assert SmallerAt(a, b, 0); }
        forall k: nat | 0 < k <= |a| && k <= |b| ensures a[..k] != b[..k] {
          assert a[..k][0] == a[0] && b[..k][0] == b[0];
        }
      } else {
        StringLessIs(a[1..], b[1..]);
        if k: nat :| SmallerAt(a[1..], b[1..], k) {
          assert a[..k + 1] == [a[0]] + a[1..][..k] && b[..k + 1] == [b[0]] + b[1..][..k];
          assert SmallerAt(a, b, k + 1);
        }
        if k: nat :| SmallerAt(a, b, k) {
          assert k > 0;
          assert a[1..][..k - 1] == a[..k][1..] && b[1..][..k - 1] == b[..k][1..];
          assert SmallerAt(a[1..], b[1..], k - 1);
        }
      }
    }
  }
}
