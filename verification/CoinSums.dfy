/** Amounts of lists and sets of coins. */
module CoinSums {
  import opened Types

  function Total(coins: seq<Coin>): nat {
    if coins == [] then 0 else Total(coins[..|coins| - 1]) + coins[|coins| - 1].amount
  }

  lemma {:induction false} TotalAppend(s: seq<Coin>, t: seq<Coin>)
    ensures Total(s + t) == Total(s) + Total(t)
  {
    if t == [] {
      assert s + t == s;
    } else {
      assert (s + t)[..|s + t| - 1] == s + t[..|t| - 1];
      TotalAppend(s, t[..|t| - 1]);
    }
  }

  ghost function SetTotal(s: set<Coin>): nat {
    if s == {} then 0 else var c :| c in s; SetTotal(s - {c}) + c.amount
  }

  lemma {:induction false} SetTotalRemove(s: set<Coin>, c: Coin)
    requires c in s
    ensures SetTotal(s) == SetTotal(s - {c}) + c.amount
  {
    var d :| d in s && SetTotal(s) == SetTotal(s - {d}) + d.amount;
    if d != c {
      SetTotalRemove(s - {d}, c);
      SetTotalRemove(s - {c}, d);
      assert s - {d} - {c} == s - {c} - {d};
    }
  }

  lemma {:induction false} SetTotalUnion(s: set<Coin>, t: set<Coin>)
    requires s !! t
    ensures SetTotal(s + t) == SetTotal(s) + SetTotal(t)
  {
    if t == {} {
      assert s + t == s;
    } else {
      var c :| c in t;
      SetTotalUnion(s, t - {c});
      assert s + t - {c} == s + (t - {c});
      SetTotalRemove(s + t, c);
      SetTotalRemove(t, c);
    }
  }

  lemma {:induction false} SetTotalOfList(coins: seq<Coin>)
    requires NoDuplicates(coins)
    ensures SetTotal(ToSet(coins)) == Total(coins)
  {
    if coins != [] {
      var n := |coins| - 1;
      SetTotalOfList(coins[..n]);
      assert ToSet(coins) == ToSet(coins[..n]) + {coins[n]};
      assert coins[n] !in coins[..n];
      SetTotalRemove(ToSet(coins), coins[n]);
      assert ToSet(coins) - {coins[n]} == ToSet(coins[..n]);
    }
  }
}
