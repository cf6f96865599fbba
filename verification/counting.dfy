/** The per-category and per-severity summary the validator builds once a
    list has passed all checks: a dictionary from value to number of records. */
module Counting {
  import opened Records

  /** Number of records of `rs` whose field `f` equals `v` (the reference count). */
  function Count(rs: seq<Record>, f: Field, v: string): (n: nat)
    requires AllHave(rs, f)
    ensures n <= |rs|
  {
    if |rs| == 0 then 0
    else Count(rs[..|rs| - 1], f, v) + (if rs[|rs| - 1][f] == v then 1 else 0)
  }

  /** The value stored under `k`, or 0 when `k` is absent (the dictionary's `get(k, 0)`). */
  function CountOf(counts: map<string, nat>, k: string): nat
  {
    if k in counts then counts[k] else 0
  }

  /** The dictionary built by walking the records in order and bumping the
      entry of each record's value under `f`. */
  function Tally(rs: seq<Record>, f: Field): (counts: map<string, nat>)
    requires AllHave(rs, f)
    ensures forall v :: v in counts <==> Occurs(rs, f, v)
    ensures forall v :: CountOf(counts, v) == Count(rs, f, v)
    ensures forall v :: v in counts ==> counts[v] > 0
  {
    if |rs| == 0 then map[]
    else
      var prefix := rs[..|rs| - 1];
      var counts := Tally(prefix, f);
      var k := rs[|rs| - 1][f];
      assert forall v :: Occurs(rs, f, v) <==> Occurs(prefix, f, v) || v == k by {
        forall v ensures Occurs(rs, f, v) ==> Occurs(prefix, f, v) || v == k {
          if Occurs(rs, f, v) {
            var i :| 0 <= i < |rs| && f in rs[i] && rs[i][f] == v;
            if i < |rs| - 1 {
              assert prefix[i] == rs[i];
            }
          }
        }
        forall v ensures Occurs(prefix, f, v) ==> Occurs(rs, f, v) {
          if Occurs(prefix, f, v) {
            var i :| 0 <= i < |prefix| && f in prefix[i] && prefix[i][f] == v;
            assert rs[i] == prefix[i];
          }
        }
      }
      counts[k := CountOf(counts, k) + 1]
  }

  /** Sum of the entries stored under `keys` (absent keys contribute 0). */
  function SumOver(counts: map<string, nat>, keys: seq<string>): nat
  {
    if |keys| == 0 then 0 else CountOf(counts, keys[0]) + SumOver(counts, keys[1..])
  }

  /** Changing an entry outside `keys` leaves their sum unchanged. */
  lemma {:induction false} SumOverOutside(counts: map<string, nat>, keys: seq<string>, k: string, n: nat)
    requires k !in keys
    ensures SumOver(counts[k := n], keys) == SumOver(counts, keys)
  {
    if |keys| > 0 {
      assert keys[0] != k;
      SumOverOutside(counts, keys[1..], k, n);
    }
  }

  /** Bumping the entry of one of the (distinct) `keys` raises their sum by one. */
  lemma {:induction false} SumOverBump(counts: map<string, nat>, keys: seq<string>, k: string)
    requires Distinct(keys)
    requires k in keys
    ensures SumOver(counts[k := CountOf(counts, k) + 1], keys) == SumOver(counts, keys) + 1
  {
    var bumped := counts[k := CountOf(counts, k) + 1];
    if keys[0] == k {
      assert k !in keys[1..] by {
        forall j | 0 <= j < |keys[1..]| ensures keys[1..][j] != k {
          assert keys[1..][j] == keys[j + 1];
        }
      }
      SumOverOutside(counts, keys[1..], k, CountOf(counts, k) + 1);
    } else {
      assert Distinct(keys[1..]) by {
        forall i, j | 0 <= i < j < |keys[1..]| ensures keys[1..][i] != keys[1..][j] {
          assert keys[1..][i] == keys[i + 1] && keys[1..][j] == keys[j + 1];
        }
      }
      assert k in keys[1..] by {
        var j :| 0 <= j < |keys| && keys[j] == k;
        assert keys[1..][j - 1] == k;
      }
      SumOverBump(counts, keys[1..], k);
    }
  }

  /** When every record's value under `f` is one of the distinct `keys`, the
      tally only uses those keys and its entries add up to the number of records. */
  lemma {:induction false} TallyAddsUp(rs: seq<Record>, f: Field, keys: seq<string>)
    requires AllHave(rs, f)
    requires forall i :: 0 <= i < |rs| ==> rs[i][f] in keys
    requires Distinct(keys)
    ensures forall v :: v in Tally(rs, f) ==> v in keys
    ensures SumOver(Tally(rs, f), keys) == |rs|
  {
    if |rs| == 0 {
      assert SumOver(map[], keys) == 0 by { SumOverEmpty(keys); }
    } else {
      var prefix := rs[..|rs| - 1];
      assert forall i :: 0 <= i < |prefix| ==> prefix[i][f] in keys;
      TallyAddsUp(prefix, f, keys);
      SumOverBump(Tally(prefix, f), keys, rs[|rs| - 1][f]);
    }
  }

  /** The empty dictionary sums to zero over any keys. */
  lemma {:induction false} SumOverEmpty(keys: seq<string>)
    ensures SumOver(map[], keys) == 0
  {
    if |keys| > 0 {
      SumOverEmpty(keys[1..]);
    }
  }
}
