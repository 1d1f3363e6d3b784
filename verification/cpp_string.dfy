/** The few `std::string` and integer operations the prompt handler relies on,
    written out with the C++ semantics they have on a 64-bit target:
    `find` answers `npos` when there is no match, `substr` throws
    `std::out_of_range` when the start lies past the end, storing a `size_t`
    into an `int` keeps the low 32 bits, and a signed `int` handed to a
    `size_t` parameter wraps modulo 2^64. A character of a Dafny string stands
    for one `char` of the C++ string, that is, one byte. */
module CppString {
  import opened Options

  /** 2^64: the number of `size_t` values. */
  const SizeModulus: int := 0x1_0000_0000_0000_0000

  /** `std::string::npos`, the largest `size_t`. */
  const Npos: nat := SizeModulus - 1

  /** 2^32 and 2^31: the width of a C++ `int` on the target. */
  const IntModulus: int := 0x1_0000_0000
  const IntLimit: int := 0x8000_0000

  /** Conversion of any integer value to `size_t` (reduction modulo 2^64). */
  function ToSize(n: int): (r: nat)
    ensures r < SizeModulus
    ensures 0 <= n < SizeModulus ==> r == n
    ensures -SizeModulus <= n < 0 ==> r == n + SizeModulus
  {
    n % SizeModulus
  }

  /** Conversion of a value to a 32-bit two's-complement `int`: this is what
      `int index = s.find(...)` does with the `size_t` answer, and also how a
      wrapped `int` sum or difference behaves. */
  function ToInt(n: int): (r: int)
    ensures -IntLimit <= r < IntLimit
    ensures -IntLimit <= n < IntLimit ==> r == n
    ensures n == Npos ==> r == -1
  {
    var m := n % IntModulus;
    if m < IntLimit then m else m - IntModulus
  }

  /** `p` occurs in `s` starting at index `k`. */
  predicate OccursAt(s: string, p: string, k: nat) {
    k + |p| <= |s| && s[k..k + |p|] == p
  }

  /** `s.find(p, from)`: the first index at or after `from` where `p` occurs,
      or `Npos`. */
  function Find(s: string, p: string, from: nat): (r: nat)
    ensures || (r == Npos && forall k :: from <= k ==> !OccursAt(s, p, k))
            || (from <= r && OccursAt(s, p, r) && forall k :: from <= k < r ==> !OccursAt(s, p, k))
    decreases |s| - from
  {
    if from + |p| > |s| then Npos
    else if s[from..from + |p|] == p then from
    else Find(s, p, from + 1)
  }

  /** `s.substr(pos, count)`: `count` characters from `pos`, or all that are
      left when fewer remain; `None` stands for the `std::out_of_range` thrown
      when `pos` lies past the end. */
  function Substr(s: string, pos: nat, count: nat): (r: Option<string>)
    ensures r.None? <==> pos > |s|
    ensures r.Some? ==> r.value <= s[pos..]
    ensures r.Some? && count != Npos && count < |s| - pos ==> r.value == s[pos..pos + count]
    ensures r.Some? && (count == Npos || count >= |s| - pos) ==> r.value == s[pos..]
  {
    if pos > |s| then None
    else if count == Npos || count >= |s| - pos then Some(s[pos..])
    else Some(s[pos..pos + count])
  }

  /** The string read back from a `char *` that was filled by copying `s`
      into a zeroed buffer: everything before the first NUL character. */
  function CString(s: string): (r: string)
    ensures r <= s
    ensures '\0' !in r
    ensures |r| < |s| ==> s[|r|] == '\0'
  {
    var k := Find(s, "\0", 0);
    assert forall j :: 0 <= j < |s| ==> (OccursAt(s, "\0", j) <==> s[j] == '\0') by {
      forall j | 0 <= j < |s| ensures OccursAt(s, "\0", j) <==> s[j] == '\0' {
        assert s[j..j + 1][0] == s[j];
      }
    }
    if k < |s| && s[k] == '\0' then s[..k] else s
  }

  /** A string without NUL survives the round trip through a C string. */
  lemma CStringOfPlain(s: string)
    requires '\0' !in s
    ensures CString(s) == s
  {
  }

  /** A string whose first character is not NUL reads back non-empty. */
  lemma CStringKeepsFirst(s: string)
    requires |s| > 0 && s[0] != '\0'
    ensures |CString(s)| > 0
  {
  }

  /** `s.find(p) == 0` holds exactly when `p` is a prefix of `s`. */
  lemma FindZeroIsPrefix(s: string, p: string)
    ensures Find(s, p, 0) == 0 <==> p <= s
  {
    if p <= s {
      assert OccursAt(s, p, 0);
    }
  }

  /** Stored into a 32-bit `int`, the answer of `find` on a string shorter
      than 2^31 characters is the index itself, or -1 for `npos`. */
  lemma FindAsInt(s: string, p: string, from: nat)
    ensures |s| < IntLimit ==>
              var r := Find(s, p, from);
              && (r == Npos || r < |s| || (r == |s| && p == []))
              && ToInt(r) == if r == Npos then -1 else r
  {
  }

  /** The one-character pattern `[c]` occurs at `k` exactly when `s[k] == c`. */
  lemma OccursAtChar(s: string, c: char, k: nat)
    requires k < |s|
    ensures OccursAt(s, [c], k) <==> s[k] == c
  {
    assert s[k..k + 1] == [s[k]];
  }
}
