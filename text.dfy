/**
 * The two JavaScript string operations the submission schema relies on:
 * `length`, which counts UTF-16 code units, and `String.prototype.includes`.
 * Dafny's `char` is a Unicode scalar value, so a character outside the Basic
 * Multilingual Plane is one `char` here but two code units in JavaScript.
 */
module Text {

  /** A character JavaScript stores in a single UTF-16 code unit. */
  predicate InBmp(c: char) {
    c as int < 0x1_0000
  }

  /** Every character of `s` is a single code unit. */
  predicate AllBmp(s: string) {
    forall i :: 0 <= i < |s| ==> InBmp(s[i])
  }

  /** The value of JavaScript's `s.length`: one unit per BMP character, a surrogate pair otherwise. */
  function Utf16Length(s: string): (n: nat)
    ensures |s| <= n <= 2 * |s|
    ensures n == 0 <==> s == []
  {
    if s == [] then 0 else (if InBmp(s[0]) then 1 else 2) + Utf16Length(s[1..])
  }

  /** For text made of BMP characters JavaScript's length is the character count. */
  lemma {:induction false} Utf16LengthOfBmp(s: string)
    requires AllBmp(s)
    ensures Utf16Length(s) == |s|
  {
    if s != [] {
      assert InBmp(s[0]);
      assert AllBmp(s[1..]) by {
        forall i | 0 <= i < |s[1..]| ensures InBmp(s[1..][i]) {
          assert s[1..][i] == s[i + 1];
        }
      }
      Utf16LengthOfBmp(s[1..]);
    }
  }

  /** Text made only of characters outside the BMP has twice as many code units as characters. */
  lemma {:induction false} Utf16LengthOfAstral(s: string)
    requires forall i :: 0 <= i < |s| ==> !InBmp(s[i])
    ensures Utf16Length(s) == 2 * |s|
  {
    if s != [] {
      assert !InBmp(s[0]);
      forall i | 0 <= i < |s[1..]| ensures !InBmp(s[1..][i]) {
        assert s[1..][i] == s[i + 1];
      }
      Utf16LengthOfAstral(s[1..]);
    }
  }

  /** One character is one code unit in the BMP and a surrogate pair outside it. */
  lemma Utf16LengthOfChar(c: char)
    ensures Utf16Length([c]) == if InBmp(c) then 1 else 2
  {
  }

  /** Length is additive over concatenation; with Utf16LengthOfChar it fixes the length of every text. */
  lemma {:induction false} Utf16LengthAppend(a: string, b: string)
    ensures Utf16Length(a + b) == Utf16Length(a) + Utf16Length(b)
  {
    if a == [] {
      assert a + b == b;
    } else {
      assert (a + b)[0] == a[0];
      assert (a + b)[1..] == a[1..] + b;
      Utf16LengthAppend(a[1..], b);
    }
  }

  /** `sub` appears in `s` starting at index `i`. */
  predicate OccursAt(s: string, sub: string, i: int) {
    0 <= i && i + |sub| <= |s| && s[i..i + |sub|] == sub
  }

  /** JavaScript's `s.includes(sub)`: is `sub` a contiguous substring of `s`, anywhere. */
  function Includes(s: string, sub: string): (b: bool)
    ensures b ==> |sub| <= |s|
    decreases |s|
  {
    if |s| < |sub| then false
    else if s[..|sub|] == sub then true
    else Includes(s[1..], sub)
  }

  /** `Includes` holds exactly when there is a position at which `sub` occurs. */
  lemma {:induction false} IncludesIff(s: string, sub: string)
    ensures Includes(s, sub) <==> exists i :: OccursAt(s, sub, i)
    decreases |s|
  {
    if |s| < |sub| {
      forall i ensures !OccursAt(s, sub, i) { }
    } else if s[..|sub|] == sub {
      assert OccursAt(s, sub, 0);
    } else {
      IncludesIff(s[1..], sub);
      if Includes(s[1..], sub) {
        var j :| OccursAt(s[1..], sub, j);
        assert s[1..][j..j + |sub|] == s[j + 1..j + 1 + |sub|];
        assert OccursAt(s, sub, j + 1);
      }
      if exists i :: OccursAt(s, sub, i) {
        var i :| OccursAt(s, sub, i);
        assert i != 0;
        assert s[1..][i - 1..i - 1 + |sub|] == s[i..i + |sub|];
        assert OccursAt(s[1..], sub, i - 1);
      }
    }
  }

  /** If some character of `sub` never appears in `s`, then `s` does not include `sub`. */
  lemma MissingCharNotIncluded(s: string, sub: string, k: nat)
    requires k < |sub| && sub[k] !in s
    ensures !Includes(s, sub)
  {
    IncludesIff(s, sub);
    forall i | 0 <= i && i + |sub| <= |s| ensures !OccursAt(s, sub, i) {
      assert s[i..i + |sub|][k] == s[i + k];
    }
  }

  /** A string built around `sub` includes it. */
  lemma InfixIncluded(prefix: string, sub: string, suffix: string)
    ensures Includes(prefix + sub + suffix, sub)
  {
    var s := prefix + sub + suffix;
    assert s[|prefix|..|prefix| + |sub|] == sub;
    assert OccursAt(s, sub, |prefix|);
    IncludesIff(s, sub);
  }
}
