/** The key order of the server's maps: operator< and operator== on sockaddr. */
module SockAddr {
  /** A sockaddr: the family and 14 bytes, compared as signed chars. */
  datatype Raw = Raw(family: nat, data: seq<int>)

  type Addr = a: Raw | |a.data| == 14 witness Raw(0, [0, 0, 0, 0, 0, 0, 0, 0, 0, 0, 0, 0, 0, 0])

  /** sin_addr.s_addr: four bytes after the port. */
  function Ip(a: Addr): seq<int> { a.data[2..6] }

  /** The first difference decides. */
  predicate Below(x: seq<int>, y: seq<int>)
    requires |x| == |y|
  {
    exists i :: 0 <= i < |x| && x[..i] == y[..i] && x[i] < y[i]
  }

  predicate Less(l: Addr, r: Addr) { l.family < r.family || (l.family == r.family && Below(l.data, r.data)) }

  method OperatorLess(l: Addr, r: Addr) returns (less: bool)
    ensures less == Less(l, r)
  {
    if l.family < r.family {
      return true;
    } else if l.family > r.family {
      return false;
    }
    for i := 0 to 14
      invariant l.data[..i] == r.data[..i]
    {
      if l.data[i] < r.data[i] {
        return true;
      } else if l.data[i] > r.data[i] {
        forall k | 0 <= k < 14 && l.data[..k] == r.data[..k] ensures l.data[k] >= r.data[k] {
          Agree(l.data, r.data, i, k);
        }
        return false;
      }
    }
    assert l.data == l.data[..14] == r.data[..14] == r.data;
    return false;
  }

  /** Two sequences that first differ at i agree before i only. */
  lemma Agree(x: seq<int>, y: seq<int>, i: nat, k: nat)
    requires |x| == |y| && i < |x| && k < |x| && x[..i] == y[..i] && x[i] != y[i] && x[..k] == y[..k]
    ensures k <= i && (k < i ==> x[k] == y[k])
  {
    if k > i {
      PrefixAgrees(x, y, k, i);
    } else if k < i {
      PrefixAgrees(x, y, i, k);
    }
  }

  lemma PrefixAgrees(x: seq<int>, y: seq<int>, n: nat, i: nat)
    requires n <= |x| == |y| && x[..n] == y[..n] && i < n
    ensures x[i] == y[i]
  {
    assert x[..n][i] == y[..n][i];
  }

  lemma {:induction false} FirstDifference(x: seq<int>, y: seq<int>) returns (i: nat)
    requires |x| == |y| && x != y
    ensures i < |x| && x[..i] == y[..i] && x[i] != y[i]
  {
    if x[0] != y[0] {
      i := 0;
    } else {
      assert x == [x[0]] + x[1..] && y == [y[0]] + y[1..];
      var j := FirstDifference(x[1..], y[1..]);
      i := j + 1;
      assert x[..i] == [x[0]] + x[1..][..j] && y[..i] == [y[0]] + y[1..][..j];
    }
  }

  /** The order is strict and total: of two addresses, exactly one is less, or they are equal. So a map with this
      key order distinguishes exactly the addresses that operator== does. */
  lemma Trichotomy(l: Addr, r: Addr)
    ensures l == r <==> !Less(l, r) && !Less(r, l)
    ensures !(Less(l, r) && Less(r, l))
  {
    if l.family == r.family && l.data != r.data {
      var i := FirstDifference(l.data, r.data);
      forall k | 0 <= k < 14 && l.data[..k] == r.data[..k] ensures k <= i && (k < i ==> l.data[k] == r.data[k]) {
        Agree(l.data, r.data, i, k);
      }
    }
  }

  lemma Transitive(a: Addr, b: Addr, c: Addr)
    requires Less(a, b) && Less(b, c)
    ensures Less(a, c)
  {
    if a.family == b.family == c.family {
      var i :| 0 <= i < 14 && a.data[..i] == b.data[..i] && a.data[i] < b.data[i];
      var j :| 0 <= j < 14 && b.data[..j] == c.data[..j] && b.data[j] < c.data[j];
      var k := if i < j then i else j;
      assert a.data[..k] == b.data[..i][..k] == c.data[..j][..k] == c.data[..k];
      assert i < j ==> b.data[..j][i] == c.data[..j][i];
      assert j < i ==> a.data[..i][j] == b.data[..i][j];
    }
  }

  /** The smaller family is less; within a family, the smaller byte at the first difference. */
  lemma FirstDifferenceDecides(l: Addr, r: Addr, i: nat)
    requires i < 14 && l.data[..i] == r.data[..i] && l.data[i] != r.data[i]
    ensures Less(l, r) <==> if l.family == r.family then l.data[i] < r.data[i] else l.family < r.family
  {
    forall k | 0 <= k < 14 && l.data[..k] == r.data[..k] ensures k <= i && (k < i ==> l.data[k] == r.data[k]) {
      Agree(l.data, r.data, i, k);
    }
  }

  /** The ip of an internet address is that of the four bytes after the two of the port, whatever the port. */
  lemma IpBehindPort(family: nat, port: seq<int>, ip: seq<int>, zero: seq<int>)
    requires |port| == 2 && |ip| == 4 && |zero| == 8
    ensures Ip(Raw(family, port + ip + zero)) == ip
  {
  }
}
