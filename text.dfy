/**
 * The three string operations of Python that the engine relies on:
 * `str.strip()`, `str.lower()` and substring membership `t in s`.
 */
module Text {

  /** The characters for which Python's `str.isspace()` holds. */
  predicate IsSpace(c: char) {
    c == ' ' || ('\t' <= c <= '\r') || ('\U{1C}' <= c <= '\U{1F}')
    || c == '\U{85}' || c == '\U{A0}' || c == '\U{1680}'
    || ('\U{2000}' <= c <= '\U{200A}') || c == '\U{2028}' || c == '\U{2029}'
    || c == '\U{202F}' || c == '\U{205F}' || c == '\U{3000}'
  }

  /** Python's `s.lstrip()`. */
  function TrimLeft(s: string): string {
    if s != [] && IsSpace(s[0]) then TrimLeft(s[1..]) else s
  }

  /** Python's `s.rstrip()`. */
  function TrimRight(s: string): string {
    if s != [] && IsSpace(s[|s| - 1]) then TrimRight(s[..|s| - 1]) else s
  }

  /** `TrimLeft` drops leading whitespace and nothing else: what is left is a suffix not starting with whitespace. */
  lemma {:induction false} TrimLeftSpec(s: string)
    ensures |TrimLeft(s)| <= |s| && TrimLeft(s) == s[|s| - |TrimLeft(s)|..]
    ensures forall k :: 0 <= k < |s| - |TrimLeft(s)| ==> IsSpace(s[k])
    ensures TrimLeft(s) == [] || !IsSpace(TrimLeft(s)[0])
  {
    if s != [] && IsSpace(s[0]) {
      TrimLeftSpec(s[1..]);
      assert forall k :: 1 <= k < |s| ==> s[1..][k - 1] == s[k];
    }
  }

  /** `TrimRight` drops trailing whitespace and nothing else: what is left is a prefix not ending with whitespace. */
  lemma {:induction false} TrimRightSpec(s: string)
    ensures |TrimRight(s)| <= |s| && TrimRight(s) == s[..|TrimRight(s)|]
    ensures forall k :: |TrimRight(s)| <= k < |s| ==> IsSpace(s[k])
    ensures TrimRight(s) == [] || !IsSpace(TrimRight(s)[|TrimRight(s)| - 1])
  {
    if s != [] && IsSpace(s[|s| - 1]) {
      TrimRightSpec(s[..|s| - 1]);
    }
  }

  /** How many whitespace characters `s` starts with. */
  function LeadingSpace(s: string): nat {
    TrimLeftSpec(s);
    |s| - |TrimLeft(s)|
  }

  /** Every character of `s` is whitespace. */
  predicate AllSpace(s: string) {
    forall k :: 0 <= k < |s| ==> IsSpace(s[k])
  }

  /** Python's `s.strip()`. */
  function Strip(s: string): string {
    TrimRight(TrimLeft(s))
  }

  /**
   * What `Strip` returns: the slice of `s` that starts after its leading
   * whitespace and has only whitespace after it, and that neither begins nor
   * ends with whitespace.
   */
  lemma StripSpec(s: string)
    ensures LeadingSpace(s) + |Strip(s)| <= |s|
    ensures Strip(s) == s[LeadingSpace(s)..LeadingSpace(s) + |Strip(s)|]
    ensures AllSpace(s[..LeadingSpace(s)]) && AllSpace(s[LeadingSpace(s) + |Strip(s)|..])
    ensures Strip(s) == [] || (!IsSpace(Strip(s)[0]) && !IsSpace(Strip(s)[|Strip(s)| - 1]))
  {
    var l := TrimLeft(s);
    var r := TrimRight(l);
    var a := LeadingSpace(s);
    TrimLeftSpec(s);
    TrimRightSpec(l);
    assert r == s[a..a + |r|];
    var b := a + |r|;
    assert AllSpace(s[b..]) by {
      forall k | 0 <= k < |s| - b ensures IsSpace(s[b..][k]) {
        assert s[b..][k] == l[|r| + k];
      }
    }
  }

  /**
   * `Strip` is determined by its characterisation: the slice `s[i..j]` with
   * only whitespace around it that neither begins nor ends with whitespace
   * is `Strip(s)`.
   */
  lemma StripUnique(s: string, i: nat, j: nat)
    requires i <= j <= |s|
    requires AllSpace(s[..i]) && AllSpace(s[j..])
    requires i < j ==> !IsSpace(s[i]) && !IsSpace(s[j - 1])
    ensures Strip(s) == s[i..j]
  {
    var r := Strip(s);
    var a := LeadingSpace(s);
    var b := a + |r|;
    StripSpec(s);
    assert forall k :: 0 <= k < a ==> IsSpace(s[k]) by {
      forall k | 0 <= k < a ensures IsSpace(s[k]) { assert s[..a][k] == s[k]; }
    }
    assert forall k :: b <= k < |s| ==> IsSpace(s[k]) by {
      forall k | b <= k < |s| ensures IsSpace(s[k]) { assert s[b..][k - b] == s[k]; }
    }
    assert forall k :: 0 <= k < i ==> IsSpace(s[k]) by {
      forall k | 0 <= k < i ensures IsSpace(s[k]) { assert s[..i][k] == s[k]; }
    }
    assert forall k :: j <= k < |s| ==> IsSpace(s[k]) by {
      forall k | j <= k < |s| ensures IsSpace(s[k]) { assert s[j..][k - j] == s[k]; }
    }
    assert a < b ==> r[0] == s[a] && r[|r| - 1] == s[b - 1];
    if i < j {
      assert a <= i < b;
      assert i <= a;
      assert a <= j - 1 < b;
      assert b <= j;
    }
  }

  /** Stripping is idempotent. */
  lemma StripIdempotent(s: string)
    ensures Strip(Strip(s)) == Strip(s)
  {
    var r := Strip(s);
    StripSpec(s);
    assert r[..0] == [] && r[|r|..] == [];
    StripUnique(r, 0, |r|);
  }

  /** `Strip(s)` is empty exactly when `s` is all whitespace. */
  lemma StripEmpty(s: string)
    ensures Strip(s) == [] <==> AllSpace(s)
  {
    var a := LeadingSpace(s);
    var r := Strip(s);
    StripSpec(s);
    if r == [] {
      TrimLeftSpec(s);
      TrimRightSpec(TrimLeft(s));
      assert TrimLeft(s) == [];
      forall k | 0 <= k < |s| ensures IsSpace(s[k]) {
        assert s[..a][k] == s[k];
      }
    }
    if AllSpace(s) {
      assert s[..0] == [] && s[0..] == s;
      StripUnique(s, 0, 0);
    }
  }

  /** Whitespace around a string does not change what `Strip` returns. */
  lemma StripIgnoresPadding(w1: string, s: string, w2: string)
    requires AllSpace(w1) && AllSpace(w2)
    ensures Strip(w1 + s + w2) == Strip(s)
  {
    var r := Strip(s);
    var i := LeadingSpace(s);
    StripSpec(s);
    var t := w1 + s + w2;
    var a := |w1| + i;
    var b := a + |r|;
    assert t[a..b] == r by {
      assert t[|w1|..|w1| + |s|] == s;
      assert s[i..i + |r|] == r;
    }
    assert AllSpace(t[..a]) by {
      forall k | 0 <= k < a ensures IsSpace(t[..a][k]) {
        if k < |w1| {
          assert t[..a][k] == w1[k];
        } else {
          assert t[..a][k] == s[..i][k - |w1|];
        }
      }
    }
    assert AllSpace(t[b..]) by {
      forall k | 0 <= k < |t| - b ensures IsSpace(t[b..][k]) {
        if b + k < |w1| + |s| {
          assert t[b..][k] == s[i + |r|..][k];
        } else {
          assert t[b..][k] == w2[b + k - |w1| - |s|];
        }
      }
    }
    StripUnique(t, a, b);
  }

  /** Python's `str.lower()` on one character, for the ASCII and Latin-1 upper-case letters. */
  function LowerChar(c: char): char {
    if 'A' <= c <= 'Z' || ('\U{C0}' <= c <= '\U{DE}' && c != '\U{D7}') then
      (c as int + 32) as char
    else
      c
  }

  /** Python's `s.lower()`, character by character. */
  function Lower(s: string): string {
    seq(|s|, k requires 0 <= k < |s| => LowerChar(s[k]))
  }

  /** Lower-casing a character keeps whitespace whitespace and nothing else. */
  lemma LowerCharSpace(c: char)
    ensures IsSpace(LowerChar(c)) <==> IsSpace(c)
    ensures LowerChar(LowerChar(c)) == LowerChar(c)
  {
  }

  /** Lower-casing is idempotent. */
  lemma LowerIdempotent(s: string)
    ensures Lower(Lower(s)) == Lower(s)
  {
    forall k | 0 <= k < |s| ensures Lower(Lower(s))[k] == Lower(s)[k] {
      LowerCharSpace(s[k]);
    }
  }

  /** Lower-casing works position by position, so it commutes with slicing. */
  lemma LowerSlice(s: string, i: nat, j: nat)
    requires i <= j <= |s|
    ensures Lower(s)[i..j] == Lower(s[i..j])
  {
  }

  /** Lower-casing a string of whitespace leaves whitespace. */
  lemma LowerAllSpace(u: string)
    requires AllSpace(u)
    ensures AllSpace(Lower(u))
  {
    forall k | 0 <= k < |u| ensures IsSpace(Lower(u)[k]) {
      LowerCharSpace(u[k]);
    }
  }

  /** Lower-casing commutes with stripping, since it keeps whitespace where it was. */
  lemma StripLower(s: string)
    ensures Strip(Lower(s)) == Lower(Strip(s))
  {
    var r := Strip(s);
    var t := Lower(s);
    var i := LeadingSpace(s);
    StripSpec(s);
    var j := i + |r|;
    LowerSlice(s, 0, i);
    LowerSlice(s, j, |s|);
    LowerSlice(s, i, j);
    assert s[0..i] == s[..i] && t[0..i] == t[..i] && s[j..|s|] == s[j..] && t[j..|s|] == t[j..];
    LowerAllSpace(s[..i]);
    LowerAllSpace(s[j..]);
    if i < j {
      assert s[i] == r[0] && s[j - 1] == r[|r| - 1];
      LowerCharSpace(s[i]);
      LowerCharSpace(s[j - 1]);
    }
    StripUnique(t, i, j);
  }

  /** Python's `t in s` for strings: `t` occurs in `s` as a contiguous substring. */
  predicate Contains(s: string, t: string) {
    exists i | 0 <= i <= |s| :: t <= s[i..]
  }
}
