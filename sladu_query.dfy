/** Reading a sladu bucket back (src/sladu/storage/redis/query.go): the members of a
    bucket's sorted set are parsed as integers and mapped to their scores. */
module SladuQuery {
  import opened Wrappers
  import opened Decimal
  import opened Commands

  /** The map the loop has built after the first `n` pairs. */
  function PairsMap(pairs: seq<Z>, n: nat): map<int, real>
    requires n <= |pairs|
  {
    if n == 0 then map[] else PairsMap(pairs, n - 1)[Atoi(pairs[n - 1].member).value := pairs[n - 1].score]
  }

  /** The integer a member stands for; a member that is not a number stands for 0. */
  function MemberKey(z: Z): int {
    Atoi(z.member).value
  }

  lemma NonNumericMemberIsZero(s: string)
    requires Atoi(s).err == Some(ErrSyntax)
    ensures MemberKey(Z(0.0, s)) == 0
  {
  }

  /** The keys are exactly the parsed members. */
  lemma {:induction false} PairsMapKeys(pairs: seq<Z>, n: nat)
    requires n <= |pairs|
    ensures forall ts :: ts in PairsMap(pairs, n) <==> exists i :: 0 <= i < n && MemberKey(pairs[i]) == ts
  {
    if n > 0 {
      PairsMapKeys(pairs, n - 1);
      var m := PairsMap(pairs, n);
      forall ts
        ensures ts in m <==> exists i :: 0 <= i < n && MemberKey(pairs[i]) == ts
      {
        var prev := PairsMap(pairs, n - 1);
        assert m == prev[MemberKey(pairs[n - 1]) := pairs[n - 1].score];
        if ts in m && ts != MemberKey(pairs[n - 1]) {
          assert ts in prev;
          var i :| 0 <= i < n - 1 && MemberKey(pairs[i]) == ts;
          assert 0 <= i < n && MemberKey(pairs[i]) == ts;
        }
        if ts != MemberKey(pairs[n - 1]) && (exists i :: 0 <= i < n && MemberKey(pairs[i]) == ts) {
          var i :| 0 <= i < n && MemberKey(pairs[i]) == ts;
          assert i < n - 1;
          assert ts in prev;
        }
      }
    }
  }

  /** Each key maps to the score of the last pair that names it: a later pair
      overwrites an earlier one. */
  lemma {:induction false} PairsMapLastWins(pairs: seq<Z>, n: nat, i: nat)
    requires i < n <= |pairs|
    requires forall j :: i < j < n ==> MemberKey(pairs[j]) != MemberKey(pairs[i])
    ensures MemberKey(pairs[i]) in PairsMap(pairs, n) && PairsMap(pairs, n)[MemberKey(pairs[i])] == pairs[i].score
  {
    if i < n - 1 {
      PairsMapLastWins(pairs, n - 1, i);
    }
  }

  lemma {:induction false} PairsMapSize(pairs: seq<Z>, n: nat)
    requires n <= |pairs|
    ensures |PairsMap(pairs, n)| <= n
  {
    if n > 0 {
      PairsMapSize(pairs, n - 1);
      var before := PairsMap(pairs, n - 1);
      var k := MemberKey(pairs[n - 1]);
      if k in before {
        assert before[k := pairs[n - 1].score].Keys == before.Keys;
      } else {
        assert before[k := pairs[n - 1].score].Keys == before.Keys + {k};
      }
    }
  }

  /** queryBucket: the whole sorted set of the bucket as a member→score map; a read
      error gives an empty map with that error. */
  method QueryBucket(read: SortedSets, bucket: string) returns (out: map<int, real>, err: Option<string>)
    ensures read(bucket).Err? ==> out == map[] && err == Some(read(bucket).error)
    ensures read(bucket).Ok? ==> err == None && out == PairsMap(read(bucket).value, |read(bucket).value|)
  {
    out := map[];
    var ret := read(bucket);
    if ret.Err? {
      return out, Some(ret.error);
    }
    var pairs := ret.value;
    for i := 0 to |pairs|
      invariant out == PairsMap(pairs, i)
    {
      var timestamp := Atoi(pairs[i].member).value;
      out := out[timestamp := pairs[i].score];
    }
    return out, None;
  }
}
