/** Bytes and text of the guest protocol: UTF-8 lengths, truncation at a character boundary, sorted capability lists and
    the big-endian length prefix. */
module GuestText {
  import opened Prelude

  type Byte = b: int | 0 <= b < 256

  // ---- UTF-8 lengths.

  function Width(c: char): (w: nat)
    ensures 1 <= w <= 4
  {
    if c as int < 0x80 then 1 else if c as int < 0x800 then 2 else if c as int < 0x10000 then 3 else 4
  }

  function Power2(n: nat): nat {
    if n == 0 then 1 else 2 * Power2(n - 1)
  }

  /** How many code points fit into `w` bytes of UTF-8: a single byte carries seven bits; of several, the first carries
      `7 - w` and each of the others six. */
  function Capacity(w: nat): nat
    requires 1 <= w <= 4
  {
    if w == 1 then Power2(7) else Power2((7 - w) + 6 * (w - 1))
  }

  /** A character takes the fewest bytes that can carry it. */
  lemma WidthIsLeast(c: char)
    ensures c as int < Capacity(Width(c)) && forall w :: 1 <= w < Width(c) ==> Capacity(w) <= c as int
  {
    assert Power2(7) == 0x80;
    assert Power2(11) == 16 * Power2(7);
    assert Power2(16) == 32 * Power2(11);
    assert Power2(21) == 32 * Power2(16);
  }

  /** `str::len`. */
  function ByteLength(s: string): nat {
    if s == [] then 0 else Width(s[0]) + ByteLength(s[1..])
  }

  /** `str::is_char_boundary`. */
  predicate IsCharBoundary(s: string, end: nat) {
    end == 0 || (s != [] && Width(s[0]) <= end && IsCharBoundary(s[1..], end - Width(s[0])))
  }

  /** `&value[..end]` for a boundary. */
  function PrefixTo(s: string, end: nat): string
    requires IsCharBoundary(s, end)
  {
    if end == 0 then [] else [s[0]] + PrefixTo(s[1..], end - Width(s[0]))
  }

  lemma {:induction false} PrefixIsPrefix(s: string, end: nat)
    requires IsCharBoundary(s, end)
    ensures |PrefixTo(s, end)| <= |s| && PrefixTo(s, end) == s[..|PrefixTo(s, end)|]
    ensures ByteLength(PrefixTo(s, end)) == end
  {
    if end > 0 {
      var rest := PrefixTo(s[1..], end - Width(s[0]));
      PrefixIsPrefix(s[1..], end - Width(s[0]));
      assert PrefixTo(s, end)[1..] == rest;
    }
  }

  lemma {:induction false} PrefixesEndAtBoundaries(s: string, k: nat)
    requires k <= |s|
    ensures IsCharBoundary(s, ByteLength(s[..k]))
    ensures PrefixTo(s, ByteLength(s[..k])) == s[..k]
  {
    if k > 0 {
      PrefixesEndAtBoundaries(s[1..], k - 1);
      assert s[..k][1..] == s[1..][..k - 1];
    }
  }

  /** `t` is a prefix of `s` within the bound, and no longer prefix is. */
  ghost predicate LongestPrefix(s: string, maximum: nat, t: string) {
    && t <= s && ByteLength(t) <= maximum
    && forall k :: |t| < k <= |s| ==> ByteLength(s[..k]) > maximum
  }

  lemma {:induction false} LongerIsLarger(s: string, j: nat, k: nat)
    requires j <= k <= |s|
    ensures ByteLength(s[..j]) + (k - j) <= ByteLength(s[..k])
  {
    if j > 0 {
      LongerIsLarger(s[1..], j - 1, k - 1);
      assert s[..j][1..] == s[1..][..j - 1] && s[..k][1..] == s[1..][..k - 1];
    } else {
      CharsTakeBytes(s[..k]);
    }
  }

  lemma {:induction false} CharsTakeBytes(s: string)
    ensures |s| <= ByteLength(s) <= 4 * |s|
  {
    if s != [] { CharsTakeBytes(s[1..]); }
  }

  /** `truncate`: walks back from the bound to a character boundary. */
  method Truncate(value: string, maximum: nat) returns (r: string)
    ensures LongestPrefix(value, maximum, r)
    ensures ByteLength(value) <= maximum ==> r == value
  {
    if ByteLength(value) <= maximum {
      assert value[..|value|] == value;
      return value;
    }
    var end: nat := maximum;
    while end > 0 && !IsCharBoundary(value, end)
      invariant end <= maximum
      invariant forall e: nat :: end < e <= maximum ==> !IsCharBoundary(value, e)
    {
      end := end - 1;
    }
    r := PrefixTo(value, end);
    PrefixIsPrefix(value, end);
    forall k | |r| < k <= |value| ensures ByteLength(value[..k]) > maximum {
      PrefixesEndAtBoundaries(value, k);
      LongerIsLarger(value, |r|, k);
    }
  }

  // ---- Sorted and unique.

  /** Insertion into a `BTreeSet<&str>`, kept as its sorted sequence. */
  function Insert(tree: seq<string>, item: string): seq<string> {
    if tree == [] then [item]
    else if item == tree[0] then tree
    else if LexLess(item, tree[0]) then [item] + tree
    else [tree[0]] + Insert(tree[1..], item)
  }

  /** `values.iter().collect::<BTreeSet<&str>>()` in iteration order. */
  function TreeOf(values: seq<string>): seq<string> {
    if values == [] then [] else Insert(TreeOf(values[..|values| - 1]), values[|values| - 1])
  }

  /** `is_sorted_unique`. */
  predicate IsSortedUnique(values: seq<string>) {
    |TreeOf(values)| == |values| && TreeOf(values) == values
  }

  lemma {:induction false} InsertKeepsOrder(tree: seq<string>, item: string)
    requires StrictlyIncreasing(tree)
    ensures StrictlyIncreasing(Insert(tree, item))
    ensures Insert(tree, item) != []
    ensures Insert(tree, item)[0] == item || (tree != [] && Insert(tree, item)[0] == tree[0] && LexLess(tree[0], item))
            || (tree != [] && item == tree[0])
  {
    if tree != [] && item != tree[0] && !LexLess(item, tree[0]) {
      LexTotal(item, tree[0]);
      var rest := tree[1..];
      assert forall i :: 0 < i < |rest| ==> rest[i - 1] == tree[i] && rest[i] == tree[i + 1];
      InsertKeepsOrder(rest, item);
      var inserted := Insert(tree, item);
      forall i | 0 < i < |inserted| ensures LexLess(inserted[i - 1], inserted[i]) {
        if i == 1 {
          assert inserted[1] == Insert(rest, item)[0];
          if rest != [] { assert LexLess(tree[0], tree[1]); }
        } else {
          assert inserted[i - 1] == Insert(rest, item)[i - 2] && inserted[i] == Insert(rest, item)[i - 1];
        }
      }
    }
  }

  lemma {:induction false} TreeIsIncreasing(values: seq<string>)
    ensures StrictlyIncreasing(TreeOf(values))
  {
    if values != [] {
      TreeIsIncreasing(values[..|values| - 1]);
      InsertKeepsOrder(TreeOf(values[..|values| - 1]), values[|values| - 1]);
    }
  }

  lemma {:induction false} InsertAtEnd(tree: seq<string>, item: string)
    requires forall i :: 0 <= i < |tree| ==> LexLess(tree[i], item)
    ensures Insert(tree, item) == tree + [item]
  {
    if tree != [] {
      LexIrreflexive(item);
      LexAsymmetric(tree[0], item);
      InsertAtEnd(tree[1..], item);
    }
  }

  lemma {:induction false} TreeOfIncreasing(values: seq<string>)
    requires StrictlyIncreasing(values)
    ensures TreeOf(values) == values
  {
    if values != [] {
      var front := values[..|values| - 1];
      TreeOfIncreasing(front);
      forall i | 0 <= i < |front| ensures LexLess(front[i], values[|values| - 1]) {
        IncreasingOrders(values, i, |values| - 1);
      }
      InsertAtEnd(front, values[|values| - 1]);
    }
  }

  /** Comparing a list with the set of its items accepts exactly the strictly increasing lists. */
  lemma SortedUniqueIsIncreasing(values: seq<string>)
    ensures IsSortedUnique(values) <==> StrictlyIncreasing(values)
  {
    TreeIsIncreasing(values);
    if StrictlyIncreasing(values) { TreeOfIncreasing(values); }
  }

  // ---- The length prefix.

  function ToBe(n: nat): (bytes: seq<Byte>)
    requires n < 0x1_0000_0000
    ensures |bytes| == 4
  {
    [n / 0x100_0000, n / 0x1_0000 % 0x100, n / 0x100 % 0x100, n % 0x100]
  }

  function FromBe(bytes: seq<Byte>): nat
    requires |bytes| == 4
  {
    bytes[0] as int * 0x100_0000 + bytes[1] as int * 0x1_0000 + bytes[2] as int * 0x100 + bytes[3] as int
  }

  lemma BigEndianInverts(n: nat)
    requires n < 0x1_0000_0000
    ensures FromBe(ToBe(n)) == n
  {
    var high := n / 0x100;
    assert n == high * 0x100 + n % 0x100;
    assert n / 0x1_0000 == high / 0x100 && high == high / 0x100 * 0x100 + high % 0x100;
    assert n / 0x100_0000 == high / 0x100 / 0x100;
  }

  /** The most significant byte comes first: prefixes compare, byte by byte, as the lengths do. */
  lemma BigEndianOrders(m: nat, n: nat)
    requires m < n < 0x1_0000_0000
    ensures exists k :: 0 <= k < 4 && ToBe(m)[..k] == ToBe(n)[..k] && ToBe(m)[k] < ToBe(n)[k]
  {
    hide ToBe;
    var (x, y) := (ToBe(m), ToBe(n));
    BigEndianInverts(m);
    BigEndianInverts(n);
    if x[0] != y[0] {
      assert x[..0] == y[..0] && x[0] < y[0];
    } else if x[1] != y[1] {
      assert x[..1] == y[..1] && x[1] < y[1];
    } else if x[2] != y[2] {
      assert x[..2] == y[..2] && x[2] < y[2];
    } else {
      assert x[..3] == y[..3] && x[3] < y[3];
    }
  }
}
