// The chained hash table as a value: how the buckets represent a map from address to node.

module Buckets {
  import opened Word32
  import opened TcIds
  import opened Model

  /** A node of the table. Only its reference count ever changes. */
  class Node {
    const srcIp: Ip
    const id: nat
    const mark: uint32
    var count: int

    constructor (srcIp: Ip, id: nat, mark: uint32)
      ensures this.srcIp == srcIp && this.id == id && this.mark == mark && count == 0
    {
      this.srcIp, this.id, this.mark, this.count := srcIp, id, mark, 0;
    }
  }

  /** The table works for any hash function; it is used with the hash_fn of the module. */
  type Hash = Ip -> nat

  /** hash % size */
  function Bucket(h: Hash, ip: Ip, size: nat): (b: nat)
    requires size > 0
    ensures b < size
  {
    h(ip) % size
  }

  /** Every node in the buckets is the one the map gives for its address, in its own bucket. */
  ghost predicate NodesPlaced(h: Hash, ht: seq<seq<Node>>, nodes: map<Ip, Node>) {
    forall b, k {:trigger Placed(h, ht, nodes, b, ht[b][k])} | 0 <= b < |ht| && 0 <= k < |ht[b]| ::
      Placed(h, ht, nodes, b, ht[b][k])
  }

  ghost predicate Placed(h: Hash, ht: seq<seq<Node>>, nodes: map<Ip, Node>, b: nat, n: Node)
    requires b < |ht|
  {
    n.srcIp in nodes && nodes[n.srcIp] == n && Bucket(h, n.srcIp, |ht|) == b
  }

  /** Every node of the map is in the bucket of its address. */
  ghost predicate NodesPresent(h: Hash, ht: seq<seq<Node>>, nodes: map<Ip, Node>) {
    && |ht| > 0
    && forall ip {:trigger Present(h, ht, nodes, ip)} | ip in nodes :: Present(h, ht, nodes, ip)
  }

  ghost predicate Present(h: Hash, ht: seq<seq<Node>>, nodes: map<Ip, Node>, ip: Ip)
    requires |ht| > 0 && ip in nodes
  {
    nodes[ip].srcIp == ip && nodes[ip] in ht[Bucket(h, ip, |ht|)]
  }

  ghost predicate NoRepeats(ht: seq<seq<Node>>) {
    forall b, j, k {:trigger Differ(ht, b, j, k)} | 0 <= b < |ht| && 0 <= j < k < |ht[b]| :: Differ(ht, b, j, k)
  }

  ghost predicate Differ(ht: seq<seq<Node>>, b: nat, j: nat, k: nat)
    requires b < |ht| && j < k < |ht[b]|
  {
    ht[b][j] != ht[b][k]
  }

  /** The buckets represent the map: right bucket, no address twice, nothing missing. */
  ghost predicate Layout(h: Hash, ht: seq<seq<Node>>, nodes: map<Ip, Node>) {
    NodesPlaced(h, ht, nodes) && NodesPresent(h, ht, nodes) && NoRepeats(ht) && Total(ht) == |nodes|
  }

  /** The number of nodes in all buckets. */
  ghost function Total(ht: seq<seq<Node>>): nat {
    if ht == [] then 0 else Total(ht[..|ht| - 1]) + |ht[|ht| - 1]|
  }

  lemma {:induction false} TotalUpdate(ht: seq<seq<Node>>, b: nat, q: seq<Node>)
    requires b < |ht|
    ensures Total(ht[b := q]) == Total(ht) - |ht[b]| + |q|
    decreases |ht|
  {
    var n := |ht| - 1;
    if b == n {
      assert ht[b := q][..n] == ht[..n];
    } else {
      assert ht[b := q][..n] == ht[..n][b := q];
      TotalUpdate(ht[..n], b, q);
    }
  }

  lemma {:induction false} TotalEmpty(ht: seq<seq<Node>>)
    requires forall b | 0 <= b < |ht| :: ht[b] == []
    ensures Total(ht) == 0
    decreases |ht|
  {
    if ht == [] {
    } else {
      TotalEmpty(ht[..|ht| - 1]);
    }
  }

  /** Searching the one bucket of an address decides whether the map has it. */
  lemma LookupInBucket(h: Hash, ht: seq<seq<Node>>, nodes: map<Ip, Node>, ip: Ip)
    requires Layout(h, ht, nodes)
    ensures var bucket := ht[Bucket(h, ip, |ht|)];
            && (forall k | 0 <= k < |bucket| && bucket[k].srcIp == ip :: ip in nodes && nodes[ip] == bucket[k])
            && ((forall k | 0 <= k < |bucket| :: bucket[k].srcIp != ip) ==> ip !in nodes)
  {
    var b := Bucket(h, ip, |ht|);
    forall k | 0 <= k < |ht[b]| && ht[b][k].srcIp == ip ensures ip in nodes && nodes[ip] == ht[b][k] {
      assert Placed(h, ht, nodes, b, ht[b][k]);
    }
    if ip in nodes { assert Present(h, ht, nodes, ip); }
  }

  lemma LayoutInsert(h: Hash, ht: seq<seq<Node>>, nodes: map<Ip, Node>, n: Node)
    requires Layout(h, ht, nodes) && n.srcIp !in nodes
    ensures var b := Bucket(h, n.srcIp, |ht|);
            Layout(h, ht[b := [n] + ht[b]], nodes[n.srcIp := n])
  {
    var b := Bucket(h, n.srcIp, |ht|);
    var ht', nodes' := ht[b := [n] + ht[b]], nodes[n.srcIp := n];
    TotalUpdate(ht, b, [n] + ht[b]);
    forall c, k | 0 <= c < |ht'| && 0 <= k < |ht'[c]| ensures Placed(h, ht', nodes', c, ht'[c][k]) {
      if c != b {
        assert Placed(h, ht, nodes, c, ht[c][k]);
      } else if k > 0 {
        assert ht'[c][k] == ht[c][k - 1];
        assert Placed(h, ht, nodes, c, ht[c][k - 1]);
      }
    }
    forall ip | ip in nodes' ensures Present(h, ht', nodes', ip) {
      if ip != n.srcIp {
        assert Present(h, ht, nodes, ip);
      } else {
        assert ht'[b][0] == n;
      }
    }
    InsertDiffers(h, ht, nodes, n);
  }

  lemma InsertDiffers(h: Hash, ht: seq<seq<Node>>, nodes: map<Ip, Node>, n: Node)
    requires |ht| > 0 && NodesPlaced(h, ht, nodes) && NoRepeats(ht) && n.srcIp !in nodes
    ensures var b := Bucket(h, n.srcIp, |ht|);
            NoRepeats(ht[b := [n] + ht[b]])
  {
    var b := Bucket(h, n.srcIp, |ht|);
    var ht' := ht[b := [n] + ht[b]];
    forall c, j, k | 0 <= c < |ht'| && 0 <= j < k < |ht'[c]| ensures Differ(ht', c, j, k) {
      if c != b {
        assert Differ(ht, c, j, k);
      } else {
        assert Placed(h, ht, nodes, c, ht[c][k - 1]);
        assert j > 0 ==> Differ(ht, c, j - 1, k - 1);
      }
    }
  }

  lemma LayoutRemove(h: Hash, ht: seq<seq<Node>>, nodes: map<Ip, Node>, b: nat, k: nat)
    requires Layout(h, ht, nodes) && b < |ht| && k < |ht[b]|
    ensures Layout(h, ht[b := ht[b][..k] + ht[b][k + 1..]], nodes - {ht[b][k].srcIp})
  {
    var n := ht[b][k];
    var q := ht[b][..k] + ht[b][k + 1..];
    var ht', nodes' := ht[b := q], nodes - {n.srcIp};
    assert Placed(h, ht, nodes, b, n);
    TotalUpdate(ht, b, q);
    assert nodes'.Keys == nodes.Keys - {n.srcIp};
    forall i | 0 <= i < |q| ensures q[i] == ht[b][if i < k then i else i + 1] && q[i] != n {
      assert if i < k then Differ(ht, b, i, k) else Differ(ht, b, k, i + 1);
    }
    forall c, i, j | 0 <= c < |ht'| && 0 <= i < j < |ht'[c]| ensures Differ(ht', c, i, j) {
      assert Differ(ht, c, if c == b && i >= k then i + 1 else i, if c == b && j >= k then j + 1 else j);
    }
    forall c, j | 0 <= c < |ht'| && 0 <= j < |ht'[c]| ensures Placed(h, ht', nodes', c, ht'[c][j]) {
      assert Placed(h, ht, nodes, c, ht[c][if c == b && j >= k then j + 1 else j]);
    }
    forall ip | ip in nodes' ensures Present(h, ht', nodes', ip) {
      assert Present(h, ht, nodes, ip);
      var c := Bucket(h, ip, |ht|);
      var j :| 0 <= j < |ht[c]| && ht[c][j] == nodes[ip];
      assert c == b ==> q[if j < k then j else j - 1] == nodes[ip];
    }
  }

  /** Different addresses have different nodes. */
  lemma NodesDistinct(h: Hash, ht: seq<seq<Node>>, nodes: map<Ip, Node>)
    requires Layout(h, ht, nodes)
    ensures forall p | p in nodes :: nodes[p].srcIp == p
  {
    forall p | p in nodes ensures nodes[p].srcIp == p { assert Present(h, ht, nodes, p); }
  }

  lemma NodesWithout(nodes: map<Ip, Node>, ip: Ip)
    requires ip in nodes
    ensures (nodes - {ip}).Keys == nodes.Keys - {ip}
    ensures |nodes - {ip}| == |nodes| - 1
  {
  }
}
