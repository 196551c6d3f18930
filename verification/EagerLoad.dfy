/** The batched join of app/models/ent/activationcode_query.go: loadOwner collects the foreign keys of the
    loaded nodes, asks for all owners in one query and hands each owner to its nodes. */
module EagerLoad {
  import opened Wrappers

  datatype User = User(id: int, mail: string)

  class ActivationCode {
    const userActivationCode: Option<int>   // the scanned foreign key; None for SQL NULL
    var owner: Option<User>                 // Edges.Owner

    constructor (key: Option<int>)
      ensures userActivationCode == key && owner == None
    {
      userActivationCode := key;
      owner := None;
    }
  }

  datatype LoadError = QueryFailed | UnexpectedForeignKey(id: int)

  // ---------- specification ----------

  /** The keys to ask for: each key present, once, in order of first appearance. */
  function AskedIds(keys: seq<Option<int>>): (ids: seq<int>) {
    if keys == [] then []
    else
      var rest := AskedIds(keys[..|keys| - 1]);
      match keys[|keys| - 1]
      case None => rest
      case Some(fk) => if fk in rest then rest else rest + [fk]
  }

  /** The number of leading neighbours with an asked id: the loop stops at the first other one. */
  function Accepted(neighbors: seq<User>, ids: seq<int>): (n: nat)
    ensures n <= |neighbors|
    ensures forall k :: 0 <= k < n ==> neighbors[k].id in ids
    ensures n < |neighbors| ==> neighbors[n].id !in ids
  {
    if neighbors == [] || neighbors[0].id !in ids then 0 else 1 + Accepted(neighbors[1..], ids)
  }

  /** The owner a node with this key ends up with: the last neighbour with that id, else what it had. */
  function OwnerFor(key: Option<int>, neighbors: seq<User>, before: Option<User>): Option<User> {
    if neighbors == [] then before
    else if key == Some(neighbors[|neighbors| - 1].id) then Some(neighbors[|neighbors| - 1])
    else OwnerFor(key, neighbors[..|neighbors| - 1], before)
  }

  /** What a query per row would find among the rows of the owners' table. */
  function Lookup(key: Option<int>, rows: seq<User>): Option<User> {
    if key.None? || rows == [] then None
    else if rows[0].id == key.value then Some(rows[0])
    else Lookup(key, rows[1..])
  }

  function Keys(nodes: seq<ActivationCode>): seq<Option<int>> {
    seq(|nodes|, i requires 0 <= i < |nodes| => nodes[i].userActivationCode)
  }

  // ---------- the loader ----------

  /** `query` is the database's answer for a list of ids. */
  method LoadOwner(nodes: seq<ActivationCode>, query: seq<int> -> Result<seq<User>, LoadError>)
    returns (error: Option<LoadError>)
    modifies nodes
    ensures AskedIds(Keys(nodes)) == [] ==> error == None && unchanged(nodes)
    ensures AskedIds(Keys(nodes)) != [] ==>
      var ids := AskedIds(Keys(nodes));
      match query(ids)
      case Err(e) => error == Some(e) && unchanged(nodes)
      case Ok(neighbors) =>
        var n := Accepted(neighbors, ids);
        && error == (if n == |neighbors| then None else Some(UnexpectedForeignKey(neighbors[n].id)))
        && forall i :: 0 <= i < |nodes| ==>
          nodes[i].owner == OwnerFor(nodes[i].userActivationCode, neighbors[..n], old(nodes[i].owner))
  {
    var ids, nodeids := CollectKeys(nodes);
    if |ids| == 0 {
      return None;
    }
    var answer := query(ids);
    if answer.Err? {
      return Some(answer.error);
    }
    error := HandOut(nodes, ids, nodeids, answer.value);
  }

  /** The second loop: each returned owner goes to the nodes that asked for it. */
  method HandOut(nodes: seq<ActivationCode>, ghost ids: seq<int>, nodeids: map<int, seq<ActivationCode>>,
                 neighbors: seq<User>)
    returns (error: Option<LoadError>)
    requires forall fk :: fk in nodeids <==> fk in ids
    requires Buckets(nodeids, nodes, |nodes|)
    modifies nodes
    ensures var n := Accepted(neighbors, ids);
      && error == (if n == |neighbors| then None else Some(UnexpectedForeignKey(neighbors[n].id)))
      && forall i :: 0 <= i < |nodes| ==>
        nodes[i].owner == OwnerFor(nodes[i].userActivationCode, neighbors[..n], old(nodes[i].owner))
  {
    for k := 0 to |neighbors|
      invariant k <= Accepted(neighbors, ids)
      invariant forall i :: 0 <= i < |nodes| ==>
        nodes[i].owner == OwnerFor(nodes[i].userActivationCode, neighbors[..k], old(nodes[i].owner))
    {
      var n := neighbors[k];
      if n.id !in nodeids {
        return Some(UnexpectedForeignKey(n.id));
      }
      AssignAll(nodeids[n.id], n, nodes);
      assert neighbors[..k + 1][..k] == neighbors[..k];
    }
    assert neighbors[..|neighbors|] == neighbors;
    return None;
  }

  /** The first loop: the ids to ask for, and the nodes of each. */
  method CollectKeys(nodes: seq<ActivationCode>) returns (ids: seq<int>, nodeids: map<int, seq<ActivationCode>>)
    ensures ids == AskedIds(Keys(nodes))
    ensures forall fk :: fk in nodeids <==> fk in ids
    ensures Buckets(nodeids, nodes, |nodes|)
  {
    ids, nodeids := [], map[];
    for i := 0 to |nodes|
      invariant ids == AskedIds(Keys(nodes)[..i])
      invariant forall fk :: fk in nodeids <==> fk in ids
      invariant Buckets(nodeids, nodes, i)
    {
      assert Keys(nodes)[..i + 1][..i] == Keys(nodes)[..i];
      if nodes[i].userActivationCode.None? {
        continue;
      }
      var fk := nodes[i].userActivationCode.value;
      if fk !in nodeids {
        ids := ids + [fk];
        nodeids := nodeids[fk := []];
      }
      nodeids := nodeids[fk := nodeids[fk] + [nodes[i]]];
    }
    assert Keys(nodes)[..|nodes|] == Keys(nodes);
  }

  /** Each key's bucket holds exactly the nodes with that key. */
  ghost predicate Buckets(nodeids: map<int, seq<ActivationCode>>, nodes: seq<ActivationCode>, i: nat)
    requires i <= |nodes|
  {
    && (forall fk, c :: fk in nodeids && c in nodeids[fk] ==> c in nodes && c.userActivationCode == Some(fk))
    && (forall j :: 0 <= j < i && nodes[j].userActivationCode.Some? ==>
          nodes[j].userActivationCode.value in nodeids && nodes[j] in nodeids[nodes[j].userActivationCode.value])
  }

  method AssignAll(bucket: seq<ActivationCode>, n: User, ghost nodes: seq<ActivationCode>)
    requires forall c :: c in nodes ==> (c in bucket <==> c.userActivationCode == Some(n.id))
    requires forall c :: c in bucket ==> c in nodes
    modifies nodes
    ensures forall i :: 0 <= i < |nodes| ==>
      nodes[i].owner == if nodes[i].userActivationCode == Some(n.id) then Some(n) else old(nodes[i].owner)
  {
    for i := 0 to |bucket|
      invariant forall c :: c in nodes ==> c.owner == if c in bucket[..i] then Some(n) else old(c.owner)
    {
      assert bucket[i] in bucket;
      bucket[i].owner := Some(n);
    }
    assert bucket[..|bucket|] == bucket;
  }

  // ---------- what the specification means ----------

  /** The asked ids are duplicate-free and exactly the keys present. */
  lemma {:induction false} AskedExactly(keys: seq<Option<int>>)
    ensures forall id :: id in AskedIds(keys) <==> Some(id) in keys
    ensures forall i, j :: 0 <= i < j < |AskedIds(keys)| ==> AskedIds(keys)[i] != AskedIds(keys)[j]
  {
    if keys != [] {
      AskedExactly(keys[..|keys| - 1]);
      assert keys == keys[..|keys| - 1] + [keys[|keys| - 1]];
    }
  }

  ghost predicate DistinctIds(users: seq<User>) {
    forall i, j :: 0 <= i < j < |users| ==> users[i].id != users[j].id
  }

  lemma {:induction false} OwnerForReturned(key: Option<int>, neighbors: seq<User>, before: Option<User>)
    requires DistinctIds(neighbors)
    ensures (exists k :: 0 <= k < |neighbors| && key == Some(neighbors[k].id)) ==>
      exists k :: 0 <= k < |neighbors| && key == Some(neighbors[k].id)
        && OwnerFor(key, neighbors, before) == Some(neighbors[k])
    ensures (forall k :: 0 <= k < |neighbors| ==> key != Some(neighbors[k].id)) ==>
      OwnerFor(key, neighbors, before) == before
  {
    if neighbors != [] {
      OwnerForReturned(key, neighbors[..|neighbors| - 1], before);
    }
  }

  lemma {:induction false} LookupFinds(key: Option<int>, rows: seq<User>, k: nat)
    requires DistinctIds(rows) && k < |rows| && key == Some(rows[k].id)
    ensures Lookup(key, rows) == Some(rows[k])
  {
    if k > 0 {
      assert rows[0].id != rows[k].id;
      LookupFinds(key, rows[1..], k - 1);
    }
  }

  lemma {:induction false} LookupMisses(key: Option<int>, rows: seq<User>)
    requires forall k :: 0 <= k < |rows| ==> key != Some(rows[k].id)
    ensures Lookup(key, rows) == None
  {
    if rows != [] {
      assert key != Some(rows[0].id);
      LookupMisses(key, rows[1..]);
    }
  }

  /** The answer to a batched query: the rows of the table with an asked id, each once, in any order. */
  ghost predicate Answers(neighbors: seq<User>, ids: seq<int>, table: seq<User>) {
    && DistinctIds(neighbors)
    && (forall k :: 0 <= k < |neighbors| ==> neighbors[k] in table && neighbors[k].id in ids)
    && (forall row :: row in table && row.id in ids ==> row in neighbors)
  }

  /** Batched loading agrees with one lookup per row: no error is raised, a node whose key names a row
      gets that row, and every other node keeps the owner it had. */
  lemma BatchedIsPerRow(keys: seq<Option<int>>, i: nat, neighbors: seq<User>, table: seq<User>, before: Option<User>)
    requires i < |keys| && DistinctIds(table)
    requires Answers(neighbors, AskedIds(keys), table)
    ensures Accepted(neighbors, AskedIds(keys)) == |neighbors|
    ensures OwnerFor(keys[i], neighbors, before) ==
      match Lookup(keys[i], table) case None => before case Some(row) => Some(row)
  {
    AskedExactly(keys);
    OwnerForReturned(keys[i], neighbors, before);
    if k :| 0 <= k < |table| && keys[i] == Some(table[k].id) {
      LookupFinds(keys[i], table, k);
      assert table[k] in table && table[k].id in AskedIds(keys);
      var m :| 0 <= m < |neighbors| && neighbors[m] == table[k];
      assert keys[i] == Some(neighbors[m].id);
      var m' :| 0 <= m' < |neighbors| && keys[i] == Some(neighbors[m'].id)
        && OwnerFor(keys[i], neighbors, before) == Some(neighbors[m']);
      assert m' == m;
    } else {
      LookupMisses(keys[i], table);
      forall k | 0 <= k < |neighbors|
        ensures keys[i] != Some(neighbors[k].id)
      {
        assert neighbors[k] in table;
      }
    }
  }
}
