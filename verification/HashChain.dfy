/**
 Hash chains in the abstract: every body names the hash of the body before it. `hash` is any
 function at all; where a result needs it to be collision-free, the result says instead that
 otherwise the two chains exhibit a collision.
 */
module HashChain {
  import opened Json

  /** The link that a body following these bodies must carry. */
  function LinkTo(hash: Json -> string, genesis: Json, bodies: seq<Json>): Json {
    if bodies == [] then genesis else Str(hash(bodies[|bodies| - 1]))
  }

  /** `prev` reads a body's link; the first body links to `genesis`. */
  predicate Linked(hash: Json -> string, prev: Json -> Json, genesis: Json, bodies: seq<Json>) {
    bodies == [] ||
    var n := |bodies| - 1;
    Linked(hash, prev, genesis, bodies[..n]) && prev(bodies[n]) == LinkTo(hash, genesis, bodies[..n])
  }

  ghost predicate Collides(hash: Json -> string, x: Json, y: Json) {
    x != y && hash(x) == hash(y)
  }

  /** The two chains contain different bodies with one hash. */
  ghost predicate Collision(hash: Json -> string, a: seq<Json>, b: seq<Json>) {
    exists x, y :: x in a && y in b && Collides(hash, x, y)
  }

  /** Where no two bodies hash alike there is no collision, and the results below hold outright. */
  lemma InjectiveNeverCollides(hash: Json -> string, a: seq<Json>, b: seq<Json>)
    requires forall x, y :: x in a && y in b && hash(x) == hash(y) ==> x == y
    ensures !Collision(hash, a, b)
  {
  }

  /** No body's hash is the genesis link. */
  ghost predicate Grounded(hash: Json -> string, genesis: Json, bodies: seq<Json>) {
    forall x :: x in bodies ==> Str(hash(x)) != genesis
  }

  /** Every prefix of a chain is a chain, and every body links to the prefix before it. */
  lemma {:induction false} LinkedPrefix(hash: Json -> string, prev: Json -> Json, genesis: Json, bodies: seq<Json>,
                                        n: nat)
    requires Linked(hash, prev, genesis, bodies) && n <= |bodies|
    ensures Linked(hash, prev, genesis, bodies[..n])
    ensures n < |bodies| ==> prev(bodies[n]) == LinkTo(hash, genesis, bodies[..n])
    decreases |bodies|
  {
    var m := |bodies| - 1;
    if n < m {
      assert bodies[..m][..n] == bodies[..n];
      LinkedPrefix(hash, prev, genesis, bodies[..m], n);
    } else if n == |bodies| {
      assert bodies[..n] == bodies;
    }
  }

  /** A chain is extended exactly by a body that links to its head. */
  lemma LinkedAppend(hash: Json -> string, prev: Json -> Json, genesis: Json, bodies: seq<Json>, body: Json)
    requires Linked(hash, prev, genesis, bodies)
    ensures Linked(hash, prev, genesis, bodies + [body]) <==> prev(body) == LinkTo(hash, genesis, bodies)
  {
    assert (bodies + [body])[..|bodies|] == bodies;
  }

  lemma CollisionGrows(hash: Json -> string, a: seq<Json>, b: seq<Json>, m: nat, n: nat)
    requires m <= |a| && n <= |b| && Collision(hash, a[..m], b[..n])
    ensures Collision(hash, a, b)
  {
    var x, y :| x in a[..m] && y in b[..n] && Collides(hash, x, y);
    assert x in a && y in b;
  }

  /**
   The head hash commits to the whole chain: two chains that end in the same hash are equal,
   body by body and in length, or they contain two different bodies with one hash.
   */
  lemma {:induction false} HeadCommits(hash: Json -> string, prev: Json -> Json, genesis: Json, a: seq<Json>,
                                       b: seq<Json>)
    requires Linked(hash, prev, genesis, a) && Linked(hash, prev, genesis, b)
    requires Grounded(hash, genesis, a) && Grounded(hash, genesis, b)
    requires LinkTo(hash, genesis, a) == LinkTo(hash, genesis, b)
    ensures a == b || Collision(hash, a, b)
    decreases |a|
  {
    if a != [] && b != [] {
      var m, n := |a| - 1, |b| - 1;
      if a[m] != b[n] {
        assert Collides(hash, a[m], b[n]);
      } else {
        HeadCommits(hash, prev, genesis, a[..m], b[..n]);
        if a[..m] == b[..n] {
          assert a == a[..m] + [a[m]] && b == b[..n] + [b[n]];
        } else {
          CollisionGrows(hash, a, b, m, n);
        }
      }
    }
  }

  /** Within one chain no two record hashes are equal, or the chain exhibits a collision. */
  lemma HashesDiffer(hash: Json -> string, prev: Json -> Json, genesis: Json, bodies: seq<Json>, i: nat, j: nat)
    requires Linked(hash, prev, genesis, bodies) && Grounded(hash, genesis, bodies) && i < j <= |bodies|
    ensures LinkTo(hash, genesis, bodies[..i]) != LinkTo(hash, genesis, bodies[..j]) || Collision(hash, bodies, bodies)
  {
    LinkedPrefix(hash, prev, genesis, bodies, i);
    LinkedPrefix(hash, prev, genesis, bodies, j);
    if LinkTo(hash, genesis, bodies[..i]) == LinkTo(hash, genesis, bodies[..j]) {
      HeadCommits(hash, prev, genesis, bodies[..i], bodies[..j]);
      assert |bodies[..i]| != |bodies[..j]|;
      CollisionGrows(hash, bodies, bodies, i, j);
    }
  }
}
