// marktbl_head_t: the chained hash table in place, with its element counter.
// The ghost field table is the map that the buckets hold.

module MarkHead {
  import opened Word32
  import opened TcIds
  import opened Model
  import opened Buckets
  import Hash

  /** hash_fn on addresses; stated through the trigger so that proofs about buckets do not unfold it. */
  ghost predicate IsHashFn(h: Buckets.Hash) {
    forall ip: Ip {:trigger Hash.HashIp(ip)} :: h(ip) == Hash.HashIp(ip)
  }

  class Head {
    const size: nat
    const ht: array<seq<Node>>
    var elemNum: nat
    ghost var table: map<Ip, Entry>
    ghost var nodes: map<Ip, Node>
    ghost var Repr: set<object>
    ghost const hash: Buckets.Hash

    ghost predicate Valid()
      reads this, Repr
      ensures Valid() ==> this in Repr
    {
      && this in Repr && ht in Repr && ht.Length == size
      && IsHashFn(hash)
      && (forall ip {:trigger nodes[ip]} | ip in nodes :: nodes[ip] in Repr && Mirrors(ip))
      && Layout(hash, ht[..], nodes)
      && table.Keys == nodes.Keys
      && elemNum == |nodes|
    }

    /** The ghost table tells what the node of ip holds. */
    ghost predicate Mirrors(ip: Ip)
      requires ip in nodes
      reads this, nodes[ip]
    {
      ip in table && table[ip] == Entry(nodes[ip].id, nodes[ip].mark, nodes[ip].count)
    }

    /** qos_marktbl_hashtbl_init */
    constructor (size: nat)
      requires size > 0
      ensures Valid() && fresh(Repr) && table == map[] && this.size == size
    {
      hash := ip => Hash.HashIp(ip);
      this.size := size;
      ht := new seq<Node>[size](_ => []);
      elemNum, nodes, table := 0, map[], map[];
      new;
      Repr := {this, ht};
      TotalEmpty(ht[..]);
    }

    /** elem_num counts the entries of the table, and is the sum of the lengths of the buckets. */
    lemma ElemNum()
      requires Valid()
      ensures elemNum == |table| == Total(ht[..])
    {
    }

    twostate lemma Untouched()
      requires old(Valid()) && unchanged(this) && unchanged(Repr)
      ensures Valid() && table == old(table) && Repr == old(Repr)
    {
      forall ip | ip in nodes ensures Mirrors(ip) { assert old(Mirrors(ip)); }
    }

    method HashIndex(ip: Ip) returns (i: nat)
      requires Valid()
      ensures i == Bucket(hash, ip, size)
    {
      var a := Hash.HashFn(LeBytes(ip));
      assert a == Hash.HashIp(ip);
      i := a % size;
    }

    /** Where the node of an address sits in its bucket; |ht[i]| when it is not there. */
    method Search(ip: Ip) returns (i: nat, k: nat)
      requires Valid()
      ensures i == Bucket(hash, ip, size) && k <= |ht[i]|
      ensures k < |ht[i]| ==> ip in nodes && ht[i][k] == nodes[ip]
      ensures k < |ht[i]| <==> ip in table
    {
      i := HashIndex(ip);
      LookupInBucket(hash, ht[..], nodes, ip);
      k := 0;
      while k < |ht[i]| && ht[i][k].srcIp != ip
        invariant k <= |ht[i]|
        invariant forall j | 0 <= j < k :: ht[i][j].srcIp != ip
      {
        k := k + 1;
      }
    }

    /** marktbl_hash_get */
    method Get(ip: Ip) returns (entry: Node?)
      requires Valid()
      ensures entry == null <==> ip !in table
      ensures entry != null ==> ip in nodes && entry == nodes[ip] && Entry(entry.id, entry.mark, entry.count) == table[ip]
    {
      var i, k := Search(ip);
      if k < |ht[i]| {
        entry := ht[i][k];
        assert Mirrors(ip);
      } else {
        entry := null;
      }
    }

    /** atomic_inc or atomic_dec on the count of a node. */
    method AddToCount(ip: Ip, entry: Node, d: int)
      requires Valid() && ip in nodes && nodes[ip] == entry
      modifies Repr
      ensures Valid() && Repr == old(Repr) && nodes == old(nodes)
      ensures table == old(table)[ip := old(table[ip]).(count := old(table[ip]).count + d)]
    {
      NodesDistinct(hash, ht[..], nodes);
      assert Mirrors(ip);
      entry.count := entry.count + d;
      table := table[ip := Entry(entry.id, entry.mark, entry.count)];
      forall p | p in nodes ensures Mirrors(p) { assert old(Mirrors(p)); }
    }

    /** hlist_add_head of a new node to the bucket of its address. */
    method Link(node: Node, i: nat)
      requires Valid() && node.srcIp !in table && i == Bucket(hash, node.srcIp, size) && node.count == 0
      modifies Repr
      ensures Valid() && Repr == old(Repr) + {node}
      ensures table == old(table)[node.srcIp := Entry(node.id, node.mark, 0)]
    {
      LayoutInsert(hash, ht[..], nodes, node);
      ht[i] := [node] + ht[i];
      elemNum := elemNum + 1;
      nodes := nodes[node.srcIp := node];
      table := table[node.srcIp := Entry(node.id, node.mark, 0)];
      Repr := Repr + {node};
      assert ht[..] == old(ht[..])[i := [node] + old(ht[..])[i]];
      forall p | p in nodes ensures Mirrors(p) { assert p != node.srcIp ==> old(Mirrors(p)); }
    }

    /** __hlist_del of the k-th node of bucket i. */
    method Unlink(ip: Ip, i: nat, k: nat)
      requires Valid() && i < size && k < |ht[i]| && ip in nodes && ht[i][k] == nodes[ip]
      modifies Repr
      ensures Valid() && Repr == old(Repr) && table == old(table) - {ip}
    {
      CutOut(ip, i, k);
      table := table - {ip};
      forall p | p in nodes ensures Mirrors(p) { assert old(Mirrors(p)); }
    }

    /** The change of the buckets; the nodes that stay are not touched. */
    method CutOut(ip: Ip, i: nat, k: nat)
      requires ht.Length > 0 && Layout(hash, ht[..], nodes) && elemNum == |nodes|
      requires i < ht.Length && k < |ht[i]| && ip in nodes && ht[i][k] == nodes[ip]
      modifies this`elemNum, this`nodes, ht
      ensures Layout(hash, ht[..], nodes) && nodes == old(nodes) - {ip} && elemNum == |nodes|
    {
      ghost var after := ht[..][i := ht[i][..k] + ht[i][k + 1..]];
      NodesDistinct(hash, ht[..], nodes);
      LayoutRemove(hash, ht[..], nodes, i, k);
      NodesWithout(nodes, ip);
      ht[i] := ht[i][..k] + ht[i][k + 1..];
      elemNum := elemNum - 1;
      nodes := nodes - {ip};
      assert ht[..] == after;
    }

    /** marktbl_hash_add past the limit check; fresh tells that a node was inserted. */
    method Add(ip: Ip, id: nat, mark: uint32, nodeOk: bool) returns (ret: Code, inserted: bool)
      requires Valid()
      modifies Repr
      ensures Valid() && fresh(Repr - old(Repr))
      ensures inserted == (ip !in old(table) && nodeOk)
      ensures ret == if ip !in old(table) && !nodeOk then ALLOC_FAIL else OK
      ensures table == if ip in old(table) then old(table)[ip := old(table[ip]).(count := old(table[ip]).count + 1)]
                       else if nodeOk then old(table)[ip := Entry(id, mark, 0)]
                       else old(table)
    {
      var i, k := Search(ip);
      if k < |ht[i]| {
        AddToCount(ip, ht[i][k], 1);
        return OK, false;
      }
      if !nodeOk {
        return ALLOC_FAIL, false;
      }
      var node := new Node(ip, id, mark);
      Link(node, i);
      return OK, true;
    }

    /** marktbl_hash_remove, with the rule and the mark of the unlinked node. */
    method Remove(ip: Ip) returns (ret: Code, id: nat, mark: uint32)
      requires Valid()
      modifies Repr
      ensures Valid() && Repr == old(Repr)
      ensures ret == if ip !in old(table) then NO_EXIST else if old(table[ip]).count > 0 then COUNT_NOZERO else OK
      ensures ret == OK ==> id == old(table[ip]).id && mark == old(table[ip]).mark
      ensures ret != OK ==> mark == 0
      ensures table == if ret == OK then old(table) - {ip} else old(table)
    {
      var i, k := Search(ip);
      if k == |ht[i]| {
        return NO_EXIST, 0, 0;
      }
      assert Mirrors(ip);
      id, mark := ht[i][k].id, ht[i][k].mark;
      if ht[i][k].count > 0 {
        return COUNT_NOZERO, id, 0;
      }
      Unlink(ip, i, k);
      ret := OK;
    }

    /** marktbl_hash_clean: unlink every node of every bucket. */
    method Clean()
      requires Valid()
      modifies Repr
      ensures Valid() && Repr == old(Repr) && table == map[] && elemNum == 0
      ensures forall b | 0 <= b < size :: ht[b] == []
    {
      ElemNum();
      for b := 0 to size
        invariant elemNum == Total(ht[..])
        invariant forall c | 0 <= c < b :: ht[c] == []
        invariant Repr == old(Repr)
      {
        while ht[b] != []
          invariant elemNum == Total(ht[..])
          invariant forall c | 0 <= c < b :: ht[c] == []
          invariant Repr == old(Repr)
          decreases |ht[b]|
        {
          TotalUpdate(ht[..], b, ht[b][1..]);
          assert ht[..][b := ht[b][1..]][b] == ht[b][1..];
          ghost var before := ht[..];
          ht[b] := ht[b][1..];
          assert ht[..] == before[b := before[b][1..]];
          elemNum := elemNum - 1;
        }
      }
      TotalEmpty(ht[..]);
      nodes, table := map[], map[];
    }
  }
}
