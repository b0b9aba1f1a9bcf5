/** An ordered storage table, as the layers above see it: keys come back in byte order. */
module Storage {
  import opened Bytes
  import opened IndexKeys

  predicate KeysAscending(keys: seq<seq<byte>>) {
    forall i, j :: 0 <= i < j < |keys| ==> Lt(keys[i], keys[j])
  }

  /** The keys of an ordered storage table that fall into a byte range, in order. */
  method Range(keys: set<seq<byte>>, lo: IndexKeys.Bound<seq<byte>>, hi: IndexKeys.Bound<seq<byte>>) returns (r: seq<seq<byte>>)
    ensures KeysAscending(r) && forall k :: k in r <==> k in keys && InBytes(lo, hi, k)
  {
    r := [];
    var left := set k | k in keys && InBytes(lo, hi, k);
    ghost var all := left;
    while left != {}
      invariant left <= all && KeysAscending(r)
      invariant forall k :: k in r <==> k in all && k !in left
      invariant forall i, k :: 0 <= i < |r| && k in left ==> Lt(r[i], k)
      decreases |left|
    {
      var least := Least(left);
      r := r + [least];
      left := left - {least};
    }
  }

  method Least(keys: set<seq<byte>>) returns (least: seq<byte>)
    requires keys != {}
    ensures least in keys && forall k :: k in keys && k != least ==> Lt(least, k)
  {
    least :| least in keys;
    var left := keys - {least};
    while left != {}
      invariant least in keys && left <= keys
      invariant forall k :: k in keys && k !in left && k != least ==> Lt(least, k)
      decreases |left|
    {
      var k :| k in left;
      LtTotal(k, least);
      if Compare(k, least) == Less {
        forall x | x in keys && x !in left && x != least ensures Lt(k, x) {
          LtTransitive(k, least, x);
        }
        least := k;
      }
      left := left - {k};
    }
  }
}
