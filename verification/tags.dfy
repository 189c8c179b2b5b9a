/**
 * Two-character tag identifiers: a base-62 positional code over DIGITS, and
 * the Tag counter the header loop hands identifiers out of.
 */
module Tags {
  import opened Common

  /** "0123456789abcdefghijklmnopqrstuvwxyzABCDEFGHIJKLMNOPQRSTUVWXYZ", written in three runs. */
  const DIGITS: string := "0123456789" + "abcdefghijklmnopqrstuvwxyz" + "ABCDEFGHIJKLMNOPQRSTUVWXYZ"
  const BASE: nat := 62

  const FIRST_TAG: string := "a0"
  const LAST_TAG: string := "zZ"
  const READ_NUM_TAG: string := "X0"
  const FILENAME_TAG: string := "X1"

  /** The digit of value i, written by arithmetic on code points. */
  function DigitChar(i: nat): char
    requires i < BASE
  {
    if i < 10 then ('0' as int + i) as char
    else if i < 36 then ('a' as int + i - 10) as char
    else ('A' as int + i - 36) as char
  }

  lemma DigitsSpelledOut()
    ensures |DIGITS| == BASE
    ensures forall i :: 0 <= i < BASE ==> DIGITS[i] == DigitChar(i)
  {
    forall i | 0 <= i < 10 ensures DIGITS[i] == DigitChar(i) {
      assert DIGITS[i] == "0123456789"[i];
    }
    forall i | 10 <= i < 36 ensures DIGITS[i] == DigitChar(i) {
      assert DIGITS[i] == "abcdefghijklmnopqrstuvwxyz"[i - 10];
    }
    forall i | 36 <= i < BASE ensures DIGITS[i] == DigitChar(i) {
      assert DIGITS[i] == "ABCDEFGHIJKLMNOPQRSTUVWXYZ"[i - 36];
    }
  }

  predicate IsDigit(c: char) {
    ('0' <= c <= '9') || ('a' <= c <= 'z') || ('A' <= c <= 'Z')
  }

  /** `DIGITS.index(c)`: the position of c in DIGITS. */
  function DigitIndex(c: char): (i: nat)
    requires IsDigit(c)
    ensures i < BASE && DIGITS[i] == c
  {
    DigitsSpelledOut();
    if '0' <= c <= '9' then c as nat - '0' as nat
    else if 'a' <= c <= 'z' then c as nat - 'a' as nat + 10
    else c as nat - 'A' as nat + 36
  }

  /** Exactly the characters of DIGITS are digits, and each sits at one position. */
  lemma {:induction false} DigitIndexOfDigit(i: nat)
    requires i < BASE
    ensures IsDigit(DIGITS[i]) && DigitIndex(DIGITS[i]) == i
  {
    DigitsSpelledOut();
  }

  lemma NonDigitAbsent(c: char)
    requires !IsDigit(c)
    ensures forall i :: 0 <= i < |DIGITS| ==> DIGITS[i] != c
  {
    DigitsSpelledOut();
  }

  predicate AllDigits(s: string) {
    forall k :: 0 <= k < |s| ==> IsDigit(s[k])
  }

  /** The number a string of DIGITS denotes, most significant digit first. */
  function ValueOf(s: string): nat
    requires AllDigits(s)
  {
    if s == [] then 0 else ValueOf(s[..|s| - 1]) * BASE + DigitIndex(s[|s| - 1])
  }

  /**
   * `Tag.tag_to_int`: the first two characters as a base-62 number. A name
   * shorter than two characters or holding a non-digit makes the program
   * raise, which is None here.
   */
  function TagToInt(name: string): (r: Option<nat>)
    ensures r.Some? <==> |name| >= 2 && IsDigit(name[0]) && IsDigit(name[1])
    ensures r.Some? ==> r.value < BASE * BASE && r.value == ValueOf(name[..2])
  {
    if |name| >= 2 && IsDigit(name[0]) && IsDigit(name[1]) then
      var two, hi, lo := name[..2], DigitIndex(name[0]), DigitIndex(name[1]);
      assert two[..1][..0] == [] && two[..1] == [name[0]] && two[1] == name[1];
      assert ValueOf(two[..1]) == hi;
      assert hi * BASE <= (BASE - 1) * BASE;
      Some(hi * BASE + lo)
    else None
  }

  /** The text `Tag.int_to_tag` computes: base 62 without leading zeros, "0" for zero. */
  function Base62(n: nat): string
    decreases n
  {
    if n < BASE then [DIGITS[n]] else Base62(n / BASE) + [DIGITS[n % BASE]]
  }

  /** Base62 writes only digits, one more than the number of times 62 divides into n. */
  lemma {:induction false} Base62Shape(n: nat)
    ensures AllDigits(Base62(n)) && Base62(n) != []
    ensures |Base62(n)| == 1 <==> n < BASE
    ensures BASE <= n < BASE * BASE ==> |Base62(n)| == 2
    ensures n > 0 ==> Base62(n)[0] != '0'
    decreases n
  {
    DigitsSpelledOut();
    if n >= BASE {
      Base62Shape(n / BASE);
    }
  }

  /** Decoding what Base62 wrote gives the number back. */
  lemma {:induction false} Base62RoundTrip(n: nat)
    ensures AllDigits(Base62(n)) && ValueOf(Base62(n)) == n
    decreases n
  {
    Base62Shape(n);
    var s := Base62(n);
    if n < BASE {
      DigitIndexOfDigit(n);
    } else {
      Base62RoundTrip(n / BASE);
      DigitIndexOfDigit(n % BASE);
      assert s[..|s| - 1] == Base62(n / BASE);
    }
  }

  /** For the two-character range, tag_to_int(int_to_tag(n)) == n. */
  lemma TagRoundTrip(n: nat)
    requires BASE <= n < BASE * BASE
    ensures |Base62(n)| == 2 && TagToInt(Base62(n)) == Some(n)
  {
    Base62Shape(n);
    Base62RoundTrip(n);
    assert Base62(n)[..2] == Base62(n);
  }

  /** And the other way: a two-digit tag not starting with '0' is what int_to_tag writes for its number. */
  lemma TagRoundTripBack(name: string)
    requires |name| == 2 && IsDigit(name[0]) && IsDigit(name[1]) && name[0] != '0'
    ensures TagToInt(name).Some? && Base62(TagToInt(name).value) == name
  {
    var hi, lo := DigitIndex(name[0]), DigitIndex(name[1]);
    var n := TagToInt(name).value;
    assert n == hi * BASE + lo;
    assert hi != 0 by { assert DIGITS[0] == '0'; }
    assert n / BASE == hi && n % BASE == lo;
    assert Base62(n) == Base62(hi) + [DIGITS[lo]];
  }

  /** Two different numbers in the two-character range get different tags. */
  lemma TagsDistinct(m: nat, n: nat)
    requires BASE <= m < BASE * BASE && BASE <= n < BASE * BASE && m != n
    ensures Base62(m) != Base62(n)
  {
    TagRoundTrip(m);
    TagRoundTrip(n);
  }

  /** The numbers of the named tags. */
  lemma NamedTagNumbers()
    ensures TagToInt(FIRST_TAG) == Some(620)
    ensures TagToInt(LAST_TAG) == Some(2231)
    ensures TagToInt(READ_NUM_TAG) == Some(3658)
    ensures TagToInt(FILENAME_TAG) == Some(3659)
  {
  }

  /** `Tag.int_to_tag`: repeated divmod by 62, digits prepended. */
  method IntToTag(num: nat) returns (res: string)
    ensures res == Base62(num)
  {
    var n: nat := num;
    res := "";
    while res == [] || n > 0
      invariant res == [] ==> n == num
      invariant res != [] ==> Base62(num) == (if n == 0 then [] else Base62(n)) + res
      decreases n, if res == [] then 1 else 0
    {
      var i := n % BASE;
      Base62Last(n);
      n := n / BASE;
      res := [DIGITS[i]] + res;
    }
  }

  /** The last digit of n's tag is n % BASE, after the tag of n / BASE when that is not zero. */
  lemma Base62Last(n: nat)
    ensures Base62(n) == (if n / BASE == 0 then [] else Base62(n / BASE)) + [DIGITS[n % BASE]]
  {
    if n < BASE {
      assert n / BASE == 0 && n % BASE == n;
    } else {
      assert n / BASE > 0;
    }
  }

  /** The counter behind tag allocation. */
  class Tag {
    var currentTagNum: nat

    constructor (startTag: string)
      requires TagToInt(startTag).Some?
      ensures currentTagNum == TagToInt(startTag).value
    {
      currentTagNum := TagToInt(startTag).value;
    }

    method Increment()
      modifies this
      ensures currentTagNum == old(currentTagNum) + 1
    {
      currentTagNum := currentTagNum + 1;
    }

    method GetName() returns (name: string)
      ensures name == Base62(currentTagNum)
    {
      name := IntToTag(currentTagNum);
    }
  }

  /** A fresh Tag started at startTag and incremented k times stands at start + k and names that number. */
  method NameAfterIncrements(startTag: string, k: nat) returns (num: nat, name: string)
    requires TagToInt(startTag).Some?
    ensures num == TagToInt(startTag).value + k
    ensures name == Base62(num)
  {
    var tag := new Tag(startTag);
    IncrementTimes(tag, k);
    num := tag.currentTagNum;
    name := tag.GetName();
  }

  /** k calls of `increment` on one Tag. */
  method IncrementTimes(tag: Tag, k: nat)
    modifies tag
    ensures tag.currentTagNum == old(tag.currentTagNum) + k
  {
    var j := 0;
    while j < k
      invariant j <= k
      invariant tag.currentTagNum == old(tag.currentTagNum) + j
    {
      tag.Increment();
      j := j + 1;
    }
  }
}
