/** Option and Result, byte strings and their order, and peer identities. */
module Base {

  datatype Option<+T> = None | Some(value: T)

  datatype Result<+T, +E> = Ok(value: T) | Err(error: E)

  const U64_LIMIT := 0x1_0000_0000_0000_0000

  type Byte = b: int | 0 <= b < 0x100
  type U64 = n: int | 0 <= n < U64_LIMIT
  type Bytes = seq<Byte>

  /** UTF-8 text, held as its bytes. */
  type Name = s: Bytes | |s| < U64_LIMIT witness []

  /** A peer identity. Only equality and one fixed total order of identities matter. */
  type Peer = nat

  /** A peer identity as written in a signed body: the one base-58 text of a peer, or text that
      names nobody. */
  datatype PeerText = Base58(peer: Peer) | Unparseable(raw: Bytes)

  function Parse(text: PeerText): Option<Peer> {
    match text
    case Base58(p) => Some(p)
    case Unparseable(_) => None
  }

  /** Rust's order on byte slices: by the first difference, a proper prefix being smaller. */
  predicate LexLess(a: Bytes, b: Bytes) {
    b != [] && (a == [] || a[0] < b[0] || (a[0] == b[0] && LexLess(a[1..], b[1..])))
  }

  lemma {:induction false} LexTrichotomy(a: Bytes, b: Bytes)
    ensures a != b ==> LexLess(a, b) || LexLess(b, a)
    ensures !(LexLess(a, b) && LexLess(b, a))
    ensures !LexLess(a, a)
  {
    if a != [] && b != [] {
      LexTrichotomy(a[1..], b[1..]);
      if a[0] == b[0] {
        assert a == [a[0]] + a[1..] && b == [b[0]] + b[1..];
      }
    }
    if a != [] {
      LexTrichotomy(a[1..], a[1..]);
    }
  }

  lemma {:induction false} LexTransitive(a: Bytes, b: Bytes, c: Bytes)
    requires LexLess(a, b) && LexLess(b, c)
    ensures LexLess(a, c)
  {
    if a != [] && a[0] == b[0] == c[0] {
      LexTransitive(a[1..], b[1..], c[1..]);
    }
  }

  /** The least element of a finite set of numbers. */
  function Least(s: set<nat>): (low: nat)
    requires s != {}
    ensures low in s && forall p :: p in s ==> low <= p
  {
    LeastExists(s);
    var low :| low in s && forall p :: p in s ==> low <= p;
    low
  }

  lemma {:induction false} LeastExists(s: set<nat>)
    requires s != {}
    ensures exists low :: low in s && forall p :: p in s ==> low <= p
  {
    var x :| x in s;
    var rest := s - {x};
    var best := x;
    if rest != {} {
      LeastExists(rest);
      var low :| low in rest && forall p :: p in rest ==> low <= p;
      best := if x <= low then x else low;
    }
    assert forall p :: p in s ==> p == x || p in rest;
    assert best in s && forall p :: p in s ==> best <= p;
  }

  /** The elements of a finite set in ascending order, as a `BTreeMap` iterates. */
  function Ascending(s: set<nat>): seq<nat> {
    if s == {} then [] else [Least(s)] + Ascending(s - {Least(s)})
  }
}
