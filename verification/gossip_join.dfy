/** Last-writer-wins registries: maps whose entries carry a version, merged entry by entry.
    `le` compares versions; a remote entry replaces a local one unless the local one is strictly newer. */
module GossipJoin {
  import opened Sorting

  /** One turn of the merge loop. */
  function Absorb<V>(m: map<string, V>, r: V, id: V -> string, le: (V, V) -> bool): map<string, V> {
    if id(r) !in m || le(m[id(r)], r) then m[id(r) := r] else m
  }

  function AbsorbAll<V>(m: map<string, V>, rs: seq<V>, id: V -> string, le: (V, V) -> bool): map<string, V>
    decreases |rs|
  {
    if rs == [] then m else AbsorbAll(Absorb(m, rs[0], id, le), rs[1..], id, le)
  }

  /** `a` after merging everything in `b`. */
  ghost function Join<V>(a: map<string, V>, b: map<string, V>, le: (V, V) -> bool): map<string, V> {
    map k | k in a.Keys + b.Keys ::
      if k !in a then b[k] else if k !in b then a[k] else if le(a[k], b[k]) then b[k] else a[k]
  }

  /** `rs` lists the entries of `b`, once each. */
  ghost predicate Entries<V>(rs: seq<V>, b: map<string, V>, id: V -> string) {
    && (forall i, j | 0 <= i < j < |rs| :: id(rs[i]) != id(rs[j]))
    && (forall i | 0 <= i < |rs| :: id(rs[i]) in b && b[id(rs[i])] == rs[i])
    && (forall k | k in b :: exists i | 0 <= i < |rs| :: id(rs[i]) == k)
  }

  lemma EntriesRest<V>(rs: seq<V>, b: map<string, V>, id: V -> string)
    requires Entries(rs, b, id) && rs != []
    ensures Entries(rs[1..], b - {id(rs[0])}, id)
  {
    var rest, b' := rs[1..], b - {id(rs[0])};
    forall k | k in b' ensures exists i | 0 <= i < |rest| :: id(rest[i]) == k {
      var i :| 0 <= i < |rs| && id(rs[i]) == k;
      assert id(rest[i - 1]) == k;
    }
  }

  lemma AbsorbThenJoin<V>(a: map<string, V>, r: V, b: map<string, V>, id: V -> string, le: (V, V) -> bool)
    requires id(r) in b && b[id(r)] == r
    ensures Join(Absorb(a, r, id, le), b - {id(r)}, le) == Join(a, b, le)
  {
    var l, j := Join(Absorb(a, r, id, le), b - {id(r)}, le), Join(a, b, le);
    assert l.Keys == j.Keys;
    forall k | k in l.Keys ensures l[k] == j[k] {}
  }

  lemma {:induction false} AbsorbAllIsJoin<V>(a: map<string, V>, rs: seq<V>, b: map<string, V>, id: V -> string,
                                              le: (V, V) -> bool)
    requires Entries(rs, b, id)
    ensures AbsorbAll(a, rs, id, le) == Join(a, b, le)
    decreases |rs|
  {
    if rs == [] {
      assert b.Keys == {};
      assert Join(a, b, le) == a;
    } else {
      EntriesRest(rs, b, id);
      AbsorbAllIsJoin(Absorb(a, rs[0], id, le), rs[1..], b - {id(rs[0])}, id, le);
      AbsorbThenJoin(a, rs[0], b, id, le);
    }
  }

  // ---- the order of information ----

  /** Everything in `a` is in `b`, in a version at least as new. */
  ghost predicate Below<V>(a: map<string, V>, b: map<string, V>, le: (V, V) -> bool) {
    forall k | k in a :: k in b && le(a[k], b[k])
  }

  /** Same entries in equally new versions. */
  ghost predicate Agree<V>(a: map<string, V>, b: map<string, V>, le: (V, V) -> bool) {
    Below(a, b, le) && Below(b, a, le)
  }

  lemma JoinIsUpperBound<V(!new)>(a: map<string, V>, b: map<string, V>, le: (V, V) -> bool)
    requires TotalPreorder(le)
    ensures Below(a, Join(a, b, le), le) && Below(b, Join(a, b, le), le)
    ensures Join(a, b, le).Keys == a.Keys + b.Keys
  {
  }

  lemma JoinIsLeast<V(!new)>(a: map<string, V>, b: map<string, V>, c: map<string, V>, le: (V, V) -> bool)
    requires Below(a, c, le) && Below(b, c, le)
    ensures Below(Join(a, b, le), c, le)
  {
  }

  lemma BelowTransitive<V(!new)>(a: map<string, V>, b: map<string, V>, c: map<string, V>, le: (V, V) -> bool)
    requires TotalPreorder(le) && Below(a, b, le) && Below(b, c, le)
    ensures Below(a, c, le)
  {
    forall k | k in a ensures k in c && le(a[k], c[k]) {
      assert k in b && le(a[k], b[k]) && le(b[k], c[k]);
    }
  }

  lemma AgreeWithSelf<V(!new)>(a: map<string, V>, le: (V, V) -> bool)
    requires TotalPreorder(le)
    ensures Agree(a, a, le)
  {
    forall k | k in a ensures le(a[k], a[k]) {}
  }

  /** Merging is commutative in the versions it keeps. */
  lemma JoinCommutes<V(!new)>(a: map<string, V>, b: map<string, V>, le: (V, V) -> bool)
    requires TotalPreorder(le)
    ensures Agree(Join(a, b, le), Join(b, a, le), le)
  {
    JoinIsUpperBound(a, b, le);
    JoinIsUpperBound(b, a, le);
    JoinIsLeast(a, b, Join(b, a, le), le);
    JoinIsLeast(b, a, Join(a, b, le), le);
  }

  /** ... and associative and idempotent to the letter. */
  lemma JoinAssociates<V(!new)>(a: map<string, V>, b: map<string, V>, c: map<string, V>, le: (V, V) -> bool)
    requires TotalPreorder(le)
    ensures Join(Join(a, b, le), c, le) == Join(a, Join(b, c, le), le)
    ensures Join(a, a, le) == a
  {
    var l, r := Join(Join(a, b, le), c, le), Join(a, Join(b, c, le), le);
    assert l.Keys == r.Keys;
    forall k | k in l.Keys ensures l[k] == r[k] {
      if k in a && k in b && k in c { assert le(a[k], b[k]) || le(b[k], a[k]); }
    }
  }

  /** In full detail the order matters exactly for different entries with tied versions. */
  lemma JoinCommutesIff<V(!new)>(a: map<string, V>, b: map<string, V>, le: (V, V) -> bool)
    requires TotalPreorder(le)
    ensures Join(a, b, le) == Join(b, a, le)
       <==> forall k | k in a && k in b && le(a[k], b[k]) && le(b[k], a[k]) :: a[k] == b[k]
  {
    var l, r := Join(a, b, le), Join(b, a, le);
    if forall k | k in a && k in b && le(a[k], b[k]) && le(b[k], a[k]) :: a[k] == b[k] {
      forall k | k in l.Keys ensures l[k] == r[k] {
        if k in a && k in b { assert le(a[k], b[k]) || le(b[k], a[k]); }
      }
      assert l == r;
    } else {
      var k :| k in a && k in b && le(a[k], b[k]) && le(b[k], a[k]) && a[k] != b[k];
      assert l[k] == b[k] && r[k] == a[k];
    }
  }

  /** After A has merged B's snapshot, B merging A's new snapshot reaches exactly A's registry. */
  lemma ExchangeConverges<V(!new)>(a: map<string, V>, b: map<string, V>, le: (V, V) -> bool)
    requires TotalPreorder(le)
    ensures Join(b, Join(a, b, le), le) == Join(a, b, le)
  {
    var j := Join(a, b, le);
    forall k | k in j.Keys ensures Join(b, j, le)[k] == j[k] {
      if k in a && k in b { assert le(a[k], b[k]) || le(b[k], a[k]); }
      if k in b { assert le(b[k], b[k]); }
    }
  }

  // ---- many peers ----

  /** Absorbing one registry (`of(peer)`) after another. */
  ghost function JoinAll<P, V>(m: map<string, V>, peers: seq<P>, of: P -> map<string, V>,
                               le: (V, V) -> bool): map<string, V>
    decreases |peers|
  {
    if peers == [] then m else JoinAll(Join(m, of(peers[0]), le), peers[1..], of, le)
  }

  lemma {:induction false} JoinAllIsUpperBound<P, V(!new)>(m: map<string, V>, peers: seq<P>, of: P -> map<string, V>,
                                                           le: (V, V) -> bool)
    requires TotalPreorder(le)
    ensures Below(m, JoinAll(m, peers, of, le), le)
    ensures forall p | p in peers :: Below(of(p), JoinAll(m, peers, of, le), le)
    decreases |peers|
  {
    if peers != [] {
      var j := Join(m, of(peers[0]), le);
      JoinIsUpperBound(m, of(peers[0]), le);
      JoinAllIsUpperBound(j, peers[1..], of, le);
      var all := JoinAll(m, peers, of, le);
      BelowTransitive(m, j, all, le);
      BelowTransitive(of(peers[0]), j, all, le);
    } else {
      AgreeWithSelf(m, le);
    }
  }

  lemma {:induction false} JoinAllIsLeast<P, V(!new)>(m: map<string, V>, peers: seq<P>, of: P -> map<string, V>,
                                                      c: map<string, V>, le: (V, V) -> bool)
    requires Below(m, c, le) && forall p | p in peers :: Below(of(p), c, le)
    ensures Below(JoinAll(m, peers, of, le), c, le)
    decreases |peers|
  {
    if peers != [] {
      JoinIsLeast(m, of(peers[0]), c, le);
      JoinAllIsLeast(Join(m, of(peers[0]), le), peers[1..], of, c, le);
    }
  }

  /** Peers that start from registries of their own and absorb each other's and the same others', in any order and any
      number of times, agree. */
  lemma GossipConverges<P(!new), V(!new)>(s: P, t: P, ps: seq<P>, qs: seq<P>, of: P -> map<string, V>,
                                          le: (V, V) -> bool)
    requires TotalPreorder(le)
    requires forall p :: (p == s || p in ps) <==> (p == t || p in qs)
    ensures Agree(JoinAll(of(s), ps, of, le), JoinAll(of(t), qs, of, le), le)
  {
    var x, y := JoinAll(of(s), ps, of, le), JoinAll(of(t), qs, of, le);
    JoinAllIsUpperBound(of(s), ps, of, le);
    JoinAllIsUpperBound(of(t), qs, of, le);
    JoinAllIsLeast(of(s), ps, of, y, le);
    JoinAllIsLeast(of(t), qs, of, x, le);
  }

  // ---- registries that change while they are passed on ----

  /** `m` holds what the parts numbered in `h` hold together, in their newest versions, and nothing else. */
  ghost predicate Sums<V(!new)>(parts: seq<map<string, V>>, h: set<nat>, m: map<string, V>, le: (V, V) -> bool) {
    && (forall k | k in h :: k < |parts| && Below(parts[k], m, le))
    && (forall c | (forall k | k in h && k < |parts| :: Below(parts[k], c, le)) :: Below(m, c, le))
  }

  lemma SumsItself<V(!new)>(parts: seq<map<string, V>>, i: nat, le: (V, V) -> bool)
    requires TotalPreorder(le) && i < |parts|
    ensures Sums(parts, {i}, parts[i], le)
  {
    AgreeWithSelf(parts[i], le);
    forall c | (forall k | k in {i} && k < |parts| :: Below(parts[k], c, le)) ensures Below(parts[i], c, le) {
      assert i in {i};
    }
  }

  lemma SumsJoined<V(!new)>(parts: seq<map<string, V>>, h: set<nat>, a: map<string, V>, g: set<nat>, b: map<string, V>,
                            le: (V, V) -> bool)
    requires TotalPreorder(le) && Sums(parts, h, a, le) && Sums(parts, g, b, le)
    ensures Sums(parts, h + g, Join(a, b, le), le)
  {
    hide Join, Below, TotalPreorder;
    var j := Join(a, b, le);
    JoinIsUpperBound(a, b, le);
    forall k | k in h + g ensures k < |parts| && Below(parts[k], j, le) {
      if k in h { BelowTransitive(parts[k], a, j, le); } else { BelowTransitive(parts[k], b, j, le); }
    }
    forall c | (forall k | k in h + g && k < |parts| :: Below(parts[k], c, le)) ensures Below(j, c, le) {
      assert forall k | k in h && k < |parts| :: k in h + g;
      assert forall k | k in g && k < |parts| :: k in h + g;
      JoinIsLeast(a, b, c, le);
    }
  }

  /** The sum is unique up to ties. */
  lemma SumsAgree<V(!new)>(parts: seq<map<string, V>>, h: set<nat>, a: map<string, V>, b: map<string, V>,
                           le: (V, V) -> bool)
    requires Sums(parts, h, a, le) && Sums(parts, h, b, le)
    ensures Agree(a, b, le)
  {
    hide Below;
  }
}
