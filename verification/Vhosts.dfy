/** Excluding virtual hosts (`gvm_vhosts_exclude` of `hosts.c`): a loop that starts over at the head of the list
    after every deletion. */
module Vhosts {
  import opened Text
  import opened Hosts

  predicate Matches(value: string, excluded: seq<string>) {
    exists j :: 0 <= j < |excluded| && SameIgnoringCase(value, Trim(excluded[j]))
  }

  /** The virtual hosts that no excluded word matches, in order. */
  function Unmatched(vs: seq<string>, excluded: seq<string>): seq<string> {
    if |vs| == 0 then []
    else
      var n := |vs| - 1;
      Unmatched(vs[..n], excluded) + if Matches(vs[n], excluded) then [] else [vs[n]]
  }

  lemma {:induction false} UnmatchedConcat(a: seq<string>, b: seq<string>, excluded: seq<string>)
    ensures Unmatched(a + b, excluded) == Unmatched(a, excluded) + Unmatched(b, excluded)
  {
    if |b| == 0 {
      assert a + b == a;
    } else {
      assert (a + b)[..|a + b| - 1] == a + b[..|b| - 1];
      UnmatchedConcat(a, b[..|b| - 1], excluded);
    }
  }

  lemma UnmatchedWithout(vs: seq<string>, i: nat, excluded: seq<string>)
    requires i < |vs| && Matches(vs[i], excluded)
    ensures Unmatched(vs[..i] + vs[i + 1..], excluded) == Unmatched(vs, excluded)
  {
    hide Matches;
    UnmatchedConcat(vs[..i], vs[i + 1..], excluded);
    UnmatchedConcat(vs[..i] + [vs[i]], vs[i + 1..], excluded);
    UnmatchedConcat(vs[..i], [vs[i]], excluded);
    assert vs == vs[..i] + [vs[i]] + vs[i + 1..];
    assert Unmatched([vs[i]][..0], excluded) == [];
    assert Unmatched([vs[i]], excluded) == [];
  }

  lemma {:induction false} AllUnmatched(vs: seq<string>, excluded: seq<string>)
    requires forall i | 0 <= i < |vs| :: !Matches(vs[i], excluded)
    ensures Unmatched(vs, excluded) == vs
  {
    if |vs| > 0 {
      AllUnmatched(vs[..|vs| - 1], excluded);
      assert vs == vs[..|vs| - 1] + [vs[|vs| - 1]];
    }
  }

  /** What is left are the virtual hosts that differ from every stripped word by more than case, each as often as before. */
  lemma {:induction false} UnmatchedMeaning(vs: seq<string>, excluded: seq<string>, v: string)
    ensures multiset(Unmatched(vs, excluded))[v] ==
      if exists w :: w in excluded && SameIgnoringCase(v, Trim(w)) then 0 else multiset(vs)[v]
  {
    hide Trim, SameIgnoringCase;
    if |vs| > 0 {
      var n := |vs| - 1;
      UnmatchedMeaning(vs[..n], excluded, v);
      assert vs == vs[..n] + [vs[n]];
      MatchesIff(vs[n], excluded);
    }
  }

  lemma MatchesIff(v: string, excluded: seq<string>)
    ensures Matches(v, excluded) <==> exists w :: w in excluded && SameIgnoringCase(v, Trim(w))
  {
    hide Trim, SameIgnoringCase;
  }

  /** The words of the list, some of them stripped already: `g_strstrip` works in place. */
  ghost predicate SameWords(words: seq<string>, excluded: seq<string>) {
    |words| == |excluded| && forall j | 0 <= j < |words| :: Trim(words[j]) == Trim(excluded[j])
  }

  /** `gvm_vhosts_exclude`: removes exactly the virtual hosts that an excluded word names, whatever the case of the
      letters, and says how many they were. */
  method ExcludeVhosts(host: Host, excludedStr: string) returns (ret: nat)
    modifies host
    ensures host.vhosts == Unmatched(old(host.vhosts), GSplit(excludedStr, ','))
    ensures ret + |host.vhosts| == |old(host.vhosts)|
  {
    hide Trim, SameIgnoringCase, GSplit, Unmatched;
    ret := 0;
    ghost var excluded := GSplit(excludedStr, ',');
    var words := GSplit(excludedStr, ',');
    if |words| == 0 {
      AllUnmatched(host.vhosts, excluded);
      return;
    }
    var i := 0;
    while i < |host.vhosts|
      invariant 0 <= i <= |host.vhosts| && SameWords(words, excluded) && |words| > 0
      invariant forall k | 0 <= k < i :: !Matches(host.vhosts[k], excluded)
      invariant Unmatched(host.vhosts, excluded) == Unmatched(old(host.vhosts), excluded)
      invariant ret + |host.vhosts| == |old(host.vhosts)|
      decreases |host.vhosts|, |host.vhosts| - i
    {
      var hit;
      hit, words := Compare(host.vhosts[i], words, excluded);
      if hit {
        UnmatchedWithout(host.vhosts, i, excluded);
        host.vhosts := host.vhosts[..i] + host.vhosts[i + 1..];
        i := 0;
        ret := ret + 1;
      } else {
        i := i + 1;
      }
    }
    AllUnmatched(host.vhosts, excluded);
  }

  /** The inner loop. */
  method Compare(value: string, words: seq<string>, ghost excluded: seq<string>) returns (hit: bool, words': seq<string>)
    requires SameWords(words, excluded)
    ensures hit == Matches(value, excluded) && SameWords(words', excluded)
  {
    hide Trim, SameIgnoringCase;
    words', hit := words, false;
    var j := 0;
    while j < |words|
      invariant 0 <= j <= |words| && SameWords(words', excluded) && !hit
      invariant forall k | 0 <= k < j :: !SameIgnoringCase(value, Trim(excluded[k]))
    {
      TrimOfTrim(words'[j]);
      words' := words'[j := Trim(words'[j])];
      if SameIgnoringCase(value, words'[j]) {
        hit := true;
        return;
      }
      j := j + 1;
    }
  }

  lemma TrimOfTrim(s: string)
    ensures Trim(Trim(s)) == Trim(s)
  {
    TrimIsTrimmed(s);
    TrimOfTrimmed(Trim(s));
  }

  /** Excluding the same words again removes nothing more. */
  lemma {:induction false} UnmatchedTwice(vs: seq<string>, excluded: seq<string>)
    ensures Unmatched(Unmatched(vs, excluded), excluded) == Unmatched(vs, excluded)
  {
    hide Matches;
    if |vs| > 0 {
      var n := |vs| - 1;
      UnmatchedTwice(vs[..n], excluded);
      UnmatchedConcat(Unmatched(vs[..n], excluded), if Matches(vs[n], excluded) then [] else [vs[n]], excluded);
      assert Unmatched([vs[n]][..0], excluded) == [];
    }
  }
}
