// Rust strings as sequences of Unicode scalar values, with their UTF-8 byte lengths
// (section 3 of RFC 3629). A byte offset is a character boundary exactly when it is the
// byte length of a prefix.

module Utf8 {

  function CharLen(c: char): (n: nat)
    ensures 1 <= n <= 4
  {
    if c as int < 0x80 then 1 else if c as int < 0x800 then 2 else if c as int < 0x10000 then 3 else 4
  }

  function ByteLen(s: string): nat {
    if s == [] then 0 else CharLen(s[0]) + ByteLen(s[1..])
  }

  predicate IsAscii(s: string) {
    forall i :: 0 <= i < |s| ==> s[i] as int < 0x80
  }

  lemma {:induction false} ByteLenConcat(a: string, b: string)
    ensures ByteLen(a + b) == ByteLen(a) + ByteLen(b)
  {
    if a == [] {
      assert a + b == b;
    } else {
      assert (a + b)[1..] == a[1..] + b;
      ByteLenConcat(a[1..], b);
    }
  }

  lemma {:induction false} ByteLenBounds(s: string)
    ensures |s| <= ByteLen(s) <= 4 * |s|
    ensures ByteLen(s) == |s| <==> IsAscii(s)
  {
    if s != [] {
      ByteLenBounds(s[1..]);
      assert IsAscii(s) <==> s[0] as int < 0x80 && IsAscii(s[1..]) by {
        assert s == [s[0]] + s[1..];
      }
    }
  }

  lemma ByteLenPrefix(s: string, k: nat)
    requires k < |s|
    ensures ByteLen(s[..k + 1]) == ByteLen(s[..k]) + CharLen(s[k])
  {
    assert s[..k + 1] == s[..k] + [s[k]];
    ByteLenConcat(s[..k], [s[k]]);
  }

  /** Longer prefixes have more bytes, so a boundary determines its prefix. */
  lemma {:induction false} ByteLenMonotone(s: string, j: nat, k: nat)
    requires j < k <= |s|
    ensures ByteLen(s[..j]) < ByteLen(s[..k])
    decreases k
  {
    ByteLenPrefix(s, k - 1);
    if j < k - 1 {
      ByteLenMonotone(s, j, k - 1);
    }
  }

  /** `str::is_char_boundary`. */
  predicate IsBoundary(s: string, offset: int) {
    exists k :: 0 <= k <= |s| && ByteLen(s[..k]) == offset
  }

  /** The number of characters of the longest prefix with at most `limit` bytes. */
  function FloorIndex(s: string, limit: nat): (k: nat)
    ensures k <= |s|
  {
    if s == [] || CharLen(s[0]) > limit then 0 else 1 + FloorIndex(s[1..], limit - CharLen(s[0]))
  }

  lemma {:induction false} FloorIndexIsFloor(s: string, limit: nat)
    ensures var k := FloorIndex(s, limit);
            ByteLen(s[..k]) <= limit && (k < |s| ==> limit < ByteLen(s[..k + 1]))
  {
    if s != [] && CharLen(s[0]) <= limit {
      var rest := limit - CharLen(s[0]);
      FloorIndexIsFloor(s[1..], rest);
      var k := FloorIndex(s[1..], rest);
      assert s[..k + 1][1..] == s[1..][..k];
      if k < |s[1..]| {
        assert s[..k + 2][1..] == s[1..][..k + 1];
      }
    }
  }

  /** Any cut that has at most `limit` bytes and cannot be one character longer is the floor. */
  lemma FloorIndexUnique(s: string, limit: nat, k: nat)
    requires k <= |s| && ByteLen(s[..k]) <= limit && (k < |s| ==> limit < ByteLen(s[..k + 1]))
    ensures k == FloorIndex(s, limit)
  {
    FloorIndexIsFloor(s, limit);
    var f := FloorIndex(s, limit);
    if f < k {
      if f + 1 < k {
        ByteLenMonotone(s, f + 1, k);
      }
      assert false;
    }
    if k < f {
      if k + 1 < f {
        ByteLenMonotone(s, k + 1, f);
      }
      assert false;
    }
  }

  /** The floor keeps every head that fits. */
  lemma FloorIndexAtLeast(s: string, limit: nat, n: nat)
    requires n <= |s| && ByteLen(s[..n]) <= limit
    ensures n <= FloorIndex(s, limit)
  {
    FloorIndexIsFloor(s, limit);
    var f := FloorIndex(s, limit);
    if f + 1 < n {
      ByteLenMonotone(s, f + 1, n);
    }
  }

  /** The common loop that walks an offset down to a boundary and slices there. */
  method FloorSlice(text: string, offset: nat) returns (k: nat)
    requires offset <= ByteLen(text)
    ensures k == FloorIndex(text, offset)
  {
    var end: int := offset;
    FloorIndexIsFloor(text, offset);
    ghost var f := FloorIndex(text, offset);
    while !IsBoundary(text, end)
      invariant ByteLen(text[..f]) <= end <= offset
      decreases end
    {
      end := end - 1;
    }
    var cut :| 0 <= cut <= |text| && ByteLen(text[..cut]) == end;
    k := cut;
    if f < k {
      ByteLenMonotone(text, f, k);
      assert f + 1 <= k;
      if f + 1 < k {
        ByteLenMonotone(text, f + 1, k);
      }
    } else if k < f {
      ByteLenMonotone(text, k, f);
    }
  }
}
