/**
 The map from replaced nodes to what replaced them. A node's representative is found by
 following the map until it ends.
 */
module ReplacementMaps {

  ghost function Next(r: map<nat, nat>, n: nat): nat
    requires n in r
  {
    r[n]
  }

  lemma NextUpdated(r: map<nat, nat>, k: nat, v: nat)
    ensures forall n: nat {:trigger Next(r[k := v], n)} :: n in r[k := v] ==>
              Next(r[k := v], n) == if n == k then v else Next(r, n)
  {
  }

  /** Following `r` for `k` steps from `n` leads to `m`. */
  ghost predicate Leads(r: map<nat, nat>, n: nat, k: nat, m: nat)
    decreases k
  {
    if k == 0 then n == m
    else n in r && Leads(r, Next(r, n), k - 1, m)
  }

  ghost predicate IsRepresentative(r: map<nat, nat>, n: nat, m: nat) {
    m !in r && exists k: nat :: Leads(r, n, k, m)
  }

  ghost predicate Acyclic(r: map<nat, nat>) {
    forall n: nat, k: nat :: k > 0 ==> !Leads(r, n, k, n)
  }

  /** `age` orders the replaced nodes so that every step leads to a later one, before `now`. */
  ghost predicate Aged(r: map<nat, nat>, age: map<nat, nat>, now: nat) {
    && (forall n :: n in r ==> n in age && age[n] < now)
    && (forall n: nat {:trigger Next(r, n)} :: n in r && Next(r, n) in r ==> age[n] < age[Next(r, n)])
  }

  lemma {:induction false} LeadsToLater(r: map<nat, nat>, age: map<nat, nat>, now: nat, n: nat, k: nat, m: nat)
    requires Aged(r, age, now) && k > 0 && Leads(r, n, k, m) && m in r
    ensures n in r && age[n] < age[m]
    decreases k
  {
    if k > 1 {
      LeadsToLater(r, age, now, Next(r, n), k - 1, m);
    }
  }

  lemma AgedIsAcyclic(r: map<nat, nat>, age: map<nat, nat>, now: nat)
    requires Aged(r, age, now)
    ensures Acyclic(r)
  {
    forall n: nat, k: nat | k > 0
      ensures !Leads(r, n, k, n)
    {
      if Leads(r, n, k, n) {
        LeadsToLater(r, age, now, n, k, n);
      }
    }
  }

  lemma {:induction false} RepresentativeIsUnique(r: map<nat, nat>, n: nat, j: nat, m: nat, k: nat, m': nat)
    requires m !in r && m' !in r && Leads(r, n, j, m) && Leads(r, n, k, m')
    ensures m == m'
    decreases j
  {
    if j > 0 && k > 0 {
      RepresentativeIsUnique(r, Next(r, n), j - 1, m, k - 1, m');
    }
  }

  /**
   A table that follows every entry of the map and is the identity elsewhere gives every node
   its representative.
   */
  lemma {:induction false} TableIsRepresentative(r: map<nat, nat>, age: map<nat, nat>, now: nat, canon: seq<nat>, n: nat)
    requires Aged(r, age, now) && n < |canon|
    requires forall i :: i in r ==> i < |canon|
    requires forall i: nat {:trigger Next(r, i)} :: i in r ==> Next(r, i) < |canon| && canon[i] == canon[Next(r, i)]
    requires forall i :: 0 <= i < |canon| && i !in r ==> canon[i] == i
    ensures IsRepresentative(r, n, canon[n])
    decreases if n in r then now - age[n] else 0
  {
    if n in r {
      var next := Next(r, n);
      TableIsRepresentative(r, age, now, canon, next);
      assert canon[n] == canon[next];
      var k: nat :| Leads(r, next, k, canon[n]);
      assert Leads(r, n, k + 1, canon[n]);
    } else {
      assert Leads(r, n, 0, n);
    }
  }

  /** Pointing a node straight at its representative changes no node's representative. */
  lemma {:induction false} CompressionKeepsRepresentatives(r: map<nat, nat>, n: nat, c: nat, i: nat, m: nat)
    requires n in r && IsRepresentative(r, n, c)
    requires IsRepresentative(r, i, m)
    ensures IsRepresentative(r[n := c], i, m)
  {
    var k: nat :| Leads(r, i, k, m);
    CompressedLeads(r, n, c, i, k, m);
  }

  lemma {:induction false} CompressedLeads(r: map<nat, nat>, n: nat, c: nat, i: nat, k: nat, m: nat)
    requires n in r && IsRepresentative(r, n, c)
    requires m !in r && Leads(r, i, k, m)
    ensures IsRepresentative(r[n := c], i, m)
    decreases k
  {
    var r' := r[n := c];
    if k == 0 {
      assert Leads(r', i, 0, m);
    } else if i == n {
      var j: nat :| Leads(r, n, j, c);
      RepresentativeIsUnique(r, n, j, c, k, m);
      assert Leads(r', Next(r', n), 0, m);
      assert Leads(r', i, 1, m);
    } else {
      CompressedLeads(r, n, c, Next(r, i), k - 1, m);
      var j: nat :| Leads(r', Next(r', i), j, m);
      assert Leads(r', i, j + 1, m);
    }
  }
}
