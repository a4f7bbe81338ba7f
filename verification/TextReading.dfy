/** What the order of texts and the printing of numbers mean, character by character. */
module TextReading {
  import opened Text

  /** Character by character: a text comes before those it begins, and otherwise the first difference decides. */
  lemma {:induction false} StrLeExact(a: string, b: string)
    ensures StrLe(a, b) <==>
      a <= b || exists i :: 0 <= i < |a| && i < |b| && a[..i] == b[..i] && a[i] < b[i]
  {
    if a != "" && b != "" && a[0] == b[0] {
      StrLeExact(a[1..], b[1..]);
      if i :| 0 <= i < |a| - 1 && i < |b| - 1 && a[1..][..i] == b[1..][..i] && a[1..][i] < b[1..][i] {
        assert a[..i + 1] == [a[0]] + a[1..][..i] == [b[0]] + b[1..][..i] == b[..i + 1];
        assert a[i + 1] < b[i + 1];
      }
      if i :| 0 <= i < |a| && i < |b| && a[..i] == b[..i] && a[i] < b[i] {
        assert i > 0 && a[1..][..i - 1] == a[..i][1..] == b[..i][1..] == b[1..][..i - 1];
        assert a[1..][i - 1] < b[1..][i - 1];
      }
      assert a == [a[0]] + a[1..] && b == [b[0]] + b[1..];
      assert a <= b <==> a[1..] <= b[1..];
    } else if a != "" && b != "" {
      assert a[..0] == b[..0];
      assert !(a <= b);
    }
  }

  /** Reading digits back, most significant first. */
  function Read(digits: string): int {
    if digits == "" then 0
    else 10 * Read(digits[..|digits| - 1]) + (digits[|digits| - 1] as int - '0' as int)
  }

  /** A printed number reads back, and has no leading zero. */
  lemma {:induction false} ItoaReads(n: nat)
    ensures Read(Itoa(n)) == n && (n > 0 ==> Itoa(n)[0] != '0')
  {
    if n >= 10 {
      ItoaReads(n / 10);
      assert Itoa(n)[..|Itoa(n)| - 1] == Itoa(n / 10);
    } else {
      assert Itoa(n)[..0] == "";
    }
  }

  /** A negative number has one sign in front. */
  lemma DecimalReads(n: int)
    ensures n >= 0 ==> Read(Decimal(n)) == n
    ensures n < 0 ==> Decimal(n)[0] == '-' && Read(Decimal(n)[1..]) == -n
  {
    ItoaReads(if n < 0 then -n else n);
  }
}
