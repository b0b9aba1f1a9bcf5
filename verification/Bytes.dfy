/** Bytes, their lexicographic order (Rust's `Ord` for `[u8]`) and fixed-width
    big-endian numbers: what every key and every wire format below is made of. */
module Bytes {

  type byte = x: int | 0 <= x < 256

  datatype Option<+T> = None | Some(value: T)

  datatype Ordering = Less | Equal | Greater {
    function Reverse(): Ordering {
      match this
      case Less => Greater
      case Equal => Equal
      case Greater => Less
    }
  }

  function CompareInt(x: int, y: int): Ordering {
    if x < y then Less else if x == y then Equal else Greater
  }

  /** Byte-lexicographic comparison. */
  function Compare(a: seq<byte>, b: seq<byte>): Ordering {
    if a == [] then (if b == [] then Equal else Less)
    else if b == [] then Greater
    else if a[0] != b[0] then CompareInt(a[0], b[0])
    else Compare(a[1..], b[1..])
  }

  predicate Lt(a: seq<byte>, b: seq<byte>) {
    Compare(a, b) == Less
  }

  predicate Le(a: seq<byte>, b: seq<byte>) {
    Compare(a, b) != Greater
  }

  lemma {:induction false} CompareSwap(a: seq<byte>, b: seq<byte>)
    ensures Compare(b, a) == Compare(a, b).Reverse()
  {
    if a != [] && b != [] && a[0] == b[0] {
      CompareSwap(a[1..], b[1..]);
    }
  }

  lemma {:induction false} CompareEqual(a: seq<byte>, b: seq<byte>)
    ensures Compare(a, b) == Equal <==> a == b
  {
    if a != [] && b != [] && a[0] == b[0] {
      CompareEqual(a[1..], b[1..]);
      assert a == [a[0]] + a[1..] && b == [b[0]] + b[1..];
    }
  }

  lemma {:induction false} LtTransitive(a: seq<byte>, b: seq<byte>, c: seq<byte>)
    requires Lt(a, b) && Lt(b, c)
    ensures Lt(a, c)
  {
    if a != [] && a[0] == b[0] == c[0] {
      LtTransitive(a[1..], b[1..], c[1..]);
    }
  }

  /** Less means: a proper prefix, or a lesser byte at the first difference. */
  lemma {:induction false} LtMeans(a: seq<byte>, b: seq<byte>)
    ensures Lt(a, b) <==> (a <= b && a != b) || exists i: nat :: DiffersAt(a, b, i) && a[i] < b[i]
  {
    if a != [] && b != [] {
      assert a == [a[0]] + a[1..] && b == [b[0]] + b[1..];
      if a[0] == b[0] {
        LtMeans(a[1..], b[1..]);
        if i: nat :| DiffersAt(a[1..], b[1..], i) && a[1..][i] < b[1..][i] {
          assert a[..i + 1] == [a[0]] + a[1..][..i] && b[..i + 1] == [b[0]] + b[1..][..i];
          assert DiffersAt(a, b, i + 1);
        }
        if i: nat :| DiffersAt(a, b, i) && a[i] < b[i] {
          assert a[1..][..i - 1] == a[..i][1..] && b[1..][..i - 1] == b[..i][1..];
          assert DiffersAt(a[1..], b[1..], i - 1);
        }
      } else {
        assert a[..0] == b[..0];
        assert DiffersAt(a, b, 0);
        forall i: nat | DiffersAt(a, b, i) ensures i == 0 {
          if i > 0 {
            FirstOfPrefix(a, b, i);
          }
        }
      }
    }
  }

  lemma FirstOfPrefix(a: seq<byte>, b: seq<byte>, i: nat)
    requires 0 < i <= |a| && i <= |b| && a[..i] == b[..i]
    ensures a[0] == b[0]
  {
    assert a[0] == a[..i][0] == b[..i][0] == b[0];
  }

  predicate DiffersAt(a: seq<byte>, b: seq<byte>, i: nat) {
    i < |a| && i < |b| && a[..i] == b[..i] && a[i] != b[i]
  }

  /** Everything an ordered container needs of the order, for one pair. */
  lemma LtTotal(a: seq<byte>, b: seq<byte>)
    ensures Lt(a, b) || a == b || Lt(b, a)
    ensures !(Lt(a, b) && Lt(b, a)) && !Lt(a, a)
    ensures Le(a, b) <==> !Lt(b, a)
    ensures Le(a, b) <==> Lt(a, b) || a == b
  {
    CompareEqual(a, b);
    CompareEqual(a, a);
    CompareSwap(a, b);
  }

  lemma {:induction false} ComparePrefix(p: seq<byte>, a: seq<byte>, b: seq<byte>)
    ensures Compare(p + a, p + b) == Compare(a, b)
  {
    if p == [] {
      assert p + a == a && p + b == b;
    } else {
      assert (p + a)[1..] == p[1..] + a && (p + b)[1..] == p[1..] + b;
      ComparePrefix(p[1..], a, b);
    }
  }

  /** Once neither operand is a prefix of the other, what follows is irrelevant. */
  lemma {:induction false} CompareDecided(a: seq<byte>, b: seq<byte>, x: seq<byte>, y: seq<byte>)
    requires !(a <= b) && !(b <= a)
    ensures Compare(a + x, b + y) == Compare(a, b) != Equal
  {
    if a[0] == b[0] {
      assert a == [a[0]] + a[1..] && b == [b[0]] + b[1..];
      assert (a + x)[1..] == a[1..] + x && (b + y)[1..] == b[1..] + y;
      CompareDecided(a[1..], b[1..], x, y);
    }
  }

  /** A proper prefix sorts first. */
  lemma PrefixFirst(a: seq<byte>, x: seq<byte>)
    ensures Le(a, a + x) && (x != [] ==> Lt(a, a + x))
  {
    assert a + [] == a;
    ComparePrefix(a, [], x);
  }

  function Pow256(w: nat): nat {
    if w == 0 then 1 else 256 * Pow256(w - 1)
  }

  /** `n` as `w` big-endian bytes. */
  function BigEndian(n: nat, w: nat): (r: seq<byte>)
    requires n < Pow256(w)
    ensures |r| == w
  {
    if w == 0 then [] else BigEndian(n / 256, w - 1) + [n % 256]
  }

  function FromBigEndian(s: seq<byte>): (n: nat)
    ensures n < Pow256(|s|)
  {
    if s == [] then 0 else 256 * FromBigEndian(s[..|s| - 1]) + s[|s| - 1]
  }

  lemma {:induction false} BigEndianRoundTrip(n: nat, w: nat)
    requires n < Pow256(w)
    ensures FromBigEndian(BigEndian(n, w)) == n
  {
    if w > 0 {
      BigEndianRoundTrip(n / 256, w - 1);
      assert BigEndian(n, w)[..w - 1] == BigEndian(n / 256, w - 1);
    }
  }

  lemma CompareSplit(a: seq<byte>, b: seq<byte>, x: seq<byte>, y: seq<byte>)
    requires |a| == |b|
    ensures Compare(a + x, b + y) == if a == b then Compare(x, y) else Compare(a, b)
  {
    if a == b {
      ComparePrefix(a, x, y);
    } else {
      CompareDecided(a, b, x, y);
    }
  }

  /** Big-endian bytes of one width sort as the numbers do. */
  lemma {:induction false} BigEndianOrder(m: nat, n: nat, w: nat)
    requires m < Pow256(w) && n < Pow256(w)
    ensures Compare(BigEndian(m, w), BigEndian(n, w)) == CompareInt(m, n)
  {
    if w > 0 {
      BigEndianOrder(m / 256, n / 256, w - 1);
      CompareEqual(BigEndian(m / 256, w - 1), BigEndian(n / 256, w - 1));
      CompareSplit(BigEndian(m / 256, w - 1), BigEndian(n / 256, w - 1), [m % 256], [n % 256]);
      assert Compare([m % 256], [n % 256]) == CompareInt(m % 256, n % 256);
    }
  }

  /** The byte-string successor used as the exclusive end of a prefix scan:
      drop trailing 0xFF bytes, then increment the last byte left. */
  function UpperBound(prefix: seq<byte>): Option<seq<byte>> {
    if prefix == [] then None
    else
      var last := prefix[|prefix| - 1];
      if last != 255 then Some(prefix[..|prefix| - 1] + [last + 1])
      else UpperBound(prefix[..|prefix| - 1])
  }

  /** The loop of the source, popping bytes off a copy. */
  method PrefixUpperBound(prefix: seq<byte>) returns (r: Option<seq<byte>>)
    ensures r == UpperBound(prefix)
  {
    var out := prefix;
    while out != []
      invariant UpperBound(out) == UpperBound(prefix)
      decreases |out|
    {
      var last := out[|out| - 1];
      out := out[..|out| - 1];
      if last != 255 {
        return Some(out + [last + 1]);
      }
    }
    return None;
  }

  /** `[prefix, UpperBound(prefix))` holds exactly the keys that start with `prefix`;
      without an upper bound, `[prefix, ..)` does. */
  lemma {:induction false} UpperBoundExact(prefix: seq<byte>, key: seq<byte>)
    ensures match UpperBound(prefix)
            case Some(ub) => prefix <= key <==> Le(prefix, key) && Lt(key, ub)
            case None => prefix <= key <==> Le(prefix, key)
    decreases |prefix|
  {
    if prefix == [] {
      LtTotal(prefix, key);
    } else {
      var n := |prefix| - 1;
      var init, last := prefix[..n], prefix[n];
      assert prefix == init + [last];
      if last == 255 {
        UpperBoundExact(init, key);
      }
      if init <= key {
        assert key == init + key[n..];
        BoundsWithin(init, last, key[n..]);
      } else {
        BoundsOutside(init, last, key);
      }
    }
  }

  /** Of two keys that start with `init`, the byte after it decides. */
  lemma BoundsWithin(init: seq<byte>, last: byte, rest: seq<byte>)
    ensures init + [last] <= init + rest <==> rest != [] && rest[0] == last
    ensures Le(init + [last], init + rest) <==> rest != [] && last <= rest[0]
    ensures last < 255 ==> (Lt(init + rest, init + [last + 1]) <==> rest == [] || rest[0] <= last)
  {
    ComparePrefix(init, [last], rest);
    if last < 255 {
      ComparePrefix(init, rest, [last + 1]);
    }
    assert rest != [] ==> (init + rest)[..|init| + 1] == init + [rest[0]];
    assert (init + [last])[|init|] == last;
  }

  /** A key that does not start with `init` is below both bounds or above both. */
  lemma BoundsOutside(init: seq<byte>, last: byte, key: seq<byte>)
    requires !(init <= key)
    ensures !(init + [last] <= key)
    ensures Le(init + [last], key) <==> Le(init, key)
    ensures last < 255 ==> !(Le(init + [last], key) && Lt(key, init + [last + 1]))
  {
    InitDecides(init, key, [last], []);
    if last < 255 {
      InitDecides(init, key, [last], [last + 1]);
    }
    assert (init + [last])[..|init|] == init;
  }

  /** A key not starting with `init` is on the same side of every extension of it. */
  lemma InitDecides(init: seq<byte>, key: seq<byte>, x: seq<byte>, y: seq<byte>)
    requires !(init <= key)
    ensures Le(init + x, key) <==> Lt(init + y, key)
    ensures Le(init, key) <==> Lt(init + y, key)
    ensures Lt(key, init + y) <==> !Lt(init + y, key)
  {
    LtTotal(key, init + y);
    LtTotal(init, key);
    LtTotal(init + x, key);
    if key <= init {
      assert init == key + init[|key|..];
      PrefixFirst(key, init[|key|..]);
      PrefixFirst(init, x);
      PrefixFirst(init, y);
      if x != [] { LtTransitive(key, init, init + x); } else { assert init + x == init; }
      if y != [] { LtTransitive(key, init, init + y); } else { assert init + y == init; }
      LtTotal(key, init + x);
      LtTotal(key, init);
    } else {
      assert key + [] == key && init + [] == init;
      CompareDecided(init, key, x, []);
      CompareDecided(init, key, y, []);
      CompareDecided(init, key, [], []);
      CompareSwap(init + y, key);
    }
  }
}
