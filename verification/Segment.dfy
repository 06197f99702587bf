/** What transport processes exchange. */
module Segment {

  const MAX_SEG_LEN: nat := 200
  const GBN_WINDOW: nat := 10
  const RECEIVE_BUF_SIZE: nat := 1000000

  type Byte = x: int | 0 <= x < 256

  /** OTHER stands for every type number that the code does not define. */
  datatype Kind = SYN | SYNACK | FIN | FINACK | DATA | DATAACK | OTHER

  /** The types that one flipped bit can make of DATA. */
  predicate MayHit(kind: Kind) {
    kind.SYN? || kind.DATAACK? || kind.OTHER?
  }

  datatype Addr = Addr(node: nat, port: nat)

  /** A segment with its sender and receiver: ports travel in the header, node IDs beside
      it. The length field is the length of data. */
  datatype Segment = Segment(src: Addr, dst: Addr, kind: Kind, seqNum: nat, data: seq<Byte>)

  datatype Option<T> = None | Some(value: T)

  function Flatten(parts: seq<seq<Byte>>): seq<Byte> {
    if parts == [] then [] else parts[0] + Flatten(parts[1..])
  }

  lemma {:induction false} FlattenAppends(a: seq<seq<Byte>>, b: seq<seq<Byte>>)
    ensures Flatten(a + b) == Flatten(a) + Flatten(b)
  {
    if a == [] {
      assert a + b == b;
    } else {
      var rest := a[1..];
      FlattenAppends(rest, b);
      assert a + b == [a[0]] + (rest + b);
      FlattenCons(a[0], rest + b);
      assert a[0] + (Flatten(rest) + Flatten(b)) == a[0] + Flatten(rest) + Flatten(b);
    }
  }

  lemma FlattenCons(part: seq<Byte>, parts: seq<seq<Byte>>)
    ensures Flatten([part] + parts) == part + Flatten(parts)
  {
    assert ([part] + parts)[1..] == parts;
  }

  lemma FlattenSingle(a: seq<Byte>)
    ensures Flatten([a]) == a
  {
  }
}
