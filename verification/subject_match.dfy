/** Key listing: the subject wildcard matcher and the filter that reuses its input's array. */
module SubjectMatch {
  import opened Wrappers
  import opened SeqFacts

  // ----- splitting at dots

  predicate DotFree(s: string) {
    '.' !in s
  }

  /** `strings.Split(s, ".")`: always at least one token. */
  function Split(s: string): (tokens: seq<string>)
    ensures tokens != []
  {
    if s == [] then [""]
    else
      var rest := Split(s[1..]);
      if s[0] == '.' then [""] + rest else [[s[0]] + rest[0]] + rest[1..]
  }

  function Join(tokens: seq<string>): string
    requires tokens != []
  {
    if |tokens| == 1 then tokens[0] else tokens[0] + ("." + Join(tokens[1..]))
  }

  ghost predicate AllDotFree(tokens: seq<string>) {
    forall i :: 0 <= i < |tokens| ==> DotFree(tokens[i])
  }

  lemma JoinCons(t: string, rest: seq<string>)
    requires rest != []
    ensures Join([t] + rest) == t + ("." + Join(rest))
  {
    assert ([t] + rest)[1..] == rest;
  }

  lemma Associative(a: string, b: string, c: string)
    ensures (a + b) + c == a + (b + c)
  {
  }

  /** Putting a character in front of the first token puts it in front of the joined string. */
  lemma JoinPrepend(c: char, tokens: seq<string>)
    requires tokens != []
    ensures Join([[c] + tokens[0]] + tokens[1..]) == [c] + Join(tokens)
  {
    if |tokens| > 1 {
      var rest := tokens[1..];
      JoinCons([c] + tokens[0], rest);
      Associative([c], tokens[0], "." + Join(rest));
    }
  }

  lemma {:induction false} JoinSplit(s: string)
    ensures Join(Split(s)) == s
    ensures AllDotFree(Split(s))
  {
    if s != [] {
      JoinSplit(s[1..]);
      var rest := Split(s[1..]);
      assert s == [s[0]] + s[1..];
      if s[0] == '.' {
        JoinCons("", rest);
      } else {
        JoinPrepend(s[0], rest);
        assert DotFree([s[0]] + rest[0]);
      }
    }
  }

  lemma {:induction false} SplitOfJoin(tokens: seq<string>)
    requires tokens != [] && AllDotFree(tokens)
    ensures Split(Join(tokens)) == tokens
    decreases |tokens|, |tokens[0]|
  {
    if tokens[0] != [] {
      var c, shorter := tokens[0][0], [tokens[0][1..]] + tokens[1..];
      assert tokens[0] == [c] + tokens[0][1..] && c in tokens[0];
      assert AllDotFree(shorter) by {
        forall i | 0 <= i < |shorter| ensures DotFree(shorter[i]) {
          assert DotFree(tokens[i]);
        }
      }
      SplitOfJoin(shorter);
      JoinPrepend(c, shorter);
      assert [[c] + shorter[0]] + shorter[1..] == tokens;
      SplitPrepend(c, Join(shorter));
    } else if |tokens| > 1 {
      SplitOfJoin(tokens[1..]);
      assert tokens == [""] + tokens[1..];
      JoinCons("", tokens[1..]);
      assert Join(tokens)[1..] == Join(tokens[1..]);
    }
  }

  lemma SplitPrepend(c: char, s: string)
    requires c != '.'
    ensures Split([c] + s) == [[c] + Split(s)[0]] + Split(s)[1..]
  {
    assert ([c] + s)[1..] == s;
  }

  /** Splitting at a given dot. */
  lemma {:induction false} SplitAtDot(a: string, b: string)
    ensures Split(a + "." + b) == Split(a) + Split(b)
  {
    var s := a + "." + b;
    if a == "" {
      assert s[1..] == b;
    } else {
      assert s[1..] == a[1..] + "." + b;
      SplitAtDot(a[1..], b);
    }
  }

  // ----- the reference matchers on tokens

  /** `*` stands for one token, `>` for any number of tokens, and what follows a `>` is ignored. */
  predicate Matches(p: seq<string>, s: seq<string>) {
    if p == [] then s == []
    else if p[0] == ">" then true
    else s != [] && (p[0] == "*" || p[0] == s[0]) && Matches(p[1..], s[1..])
  }

  /** The subject rule of NATS: `>` stands for one or more tokens and only as the last token. */
  predicate NatsMatches(p: seq<string>, s: seq<string>) {
    if p == [] then s == []
    else if p[0] == ">" then |p| == 1 && s != []
    else s != [] && (p[0] == "*" || p[0] == s[0]) && NatsMatches(p[1..], s[1..])
  }

  /** `subjectMatch`. */
  method Match(pattern: string, subject: string) returns (b: bool)
    ensures b == Matches(Split(pattern), Split(subject))
  {
    var p, s := Split(pattern), Split(subject);
    for i := 0 to |p|
      invariant i <= |s|
      invariant Matches(p, s) == Matches(p[i..], s[i..])
    {
      if p[i] == ">" {
        return true;
      }
      if i >= |s| {
        return false;
      }
      assert p[i..][1..] == p[i + 1..] && s[i..][1..] == s[i + 1..];
      if p[i] == "*" {
        continue;
      }
      if p[i] != s[i] {
        return false;
      }
    }
    return |p| == |s|;
  }

  /** The first `>` of the pattern, if any. */
  function FirstRest(p: seq<string>): Option<nat> {
    if p == [] then None
    else if p[0] == ">" then Some(0)
    else match FirstRest(p[1..]) case None => None case Some(g) => Some(g + 1)
  }

  predicate TokenMatches(p: string, t: string) {
    p == "*" || p == t
  }

  /** Both rules agree on what precedes the first `>`; the code then accepts everything that is long enough,
      NATS only if the `>` ends the pattern and at least one token is left. */
  lemma {:induction false} MatchMeaning(p: seq<string>, s: seq<string>)
    ensures match FirstRest(p)
            case None =>
              && (Matches(p, s) <==> |p| == |s| && forall i :: 0 <= i < |p| ==> TokenMatches(p[i], s[i]))
              && (NatsMatches(p, s) <==> Matches(p, s))
            case Some(g) =>
              && g < |p|
              && (Matches(p, s) <==> g <= |s| && forall i :: 0 <= i < g ==> TokenMatches(p[i], s[i]))
              && (NatsMatches(p, s) <==> Matches(p, s) && g + 1 == |p| && g < |s|)
    decreases p
  {
    if p != [] && p[0] != ">" && s != [] {
      MatchMeaning(p[1..], s[1..]);
      assert forall i :: 1 <= i < |p| && i < |s| ==> p[i] == p[1..][i - 1] && s[i] == s[1..][i - 1];
      match FirstRest(p[1..]) {
        case None =>
          assert forall i :: 0 <= i < |p[1..]| && i < |s[1..]| ==> p[1..][i] == p[i + 1] && s[1..][i] == s[i + 1];
        case Some(g) =>
          assert forall i :: 0 <= i < g && i < |s[1..]| ==> p[1..][i] == p[i + 1] && s[1..][i] == s[i + 1];
      }
    } else if p != [] && p[0] != ">" {
      MatchMeaning(p[1..], []);
    }
  }

  /** The code departs from the NATS rule exactly when the pattern has a `>`, the tokens before the first one
      match the subject's, and either the subject ends where that `>` stands or more tokens follow it. */
  lemma DiffersFromNats(p: seq<string>, s: seq<string>)
    ensures Matches(p, s) != NatsMatches(p, s)
            <==> match FirstRest(p)
                 case None => false
                 case Some(g) =>
                   && g <= |s| && (forall i :: 0 <= i < g && i < |p| ==> TokenMatches(p[i], s[i]))
                   && (|s| == g || g + 1 < |p|)
    ensures NatsMatches(p, s) ==> Matches(p, s)
  {
    MatchMeaning(p, s);
  }

  /** The smallest ways to differ: `a.>` matches `a`, and `>.b` matches everything. */
  lemma DifferingInputs()
    ensures Matches(["a", ">"], ["a"]) && !NatsMatches(["a", ">"], ["a"])
    ensures Matches([">", "b"], ["c"]) && !NatsMatches([">", "b"], ["c"])
  {
    var p, s := ["a", ">"], ["a"];
    assert p[1..] == [">"] && s[1..] == [];
    assert Matches([">"], []) && !NatsMatches([">"], []);
  }

  // ----- the filter that overwrites its own input

  function Filter(match_: string -> bool, keys: seq<string>): seq<string> {
    if keys == [] then []
    else
      var last := |keys| - 1;
      Filter(match_, keys[..last]) + if match_(keys[last]) then [keys[last]] else []
  }

  function KeyMatches(pattern: string): string -> bool {
    (k: string) => Matches(Split(pattern), Split(k))
  }

  /** The filter keeps the matching keys in the order in which they stood. */
  lemma {:induction false} FilterOrder(match_: string -> bool, keys: seq<string>) returns (at: seq<nat>)
    ensures Selects(at, keys, match_, Filter(match_, keys))
  {
    if keys == [] {
      at := [];
    } else {
      var n := |keys| - 1;
      at := FilterOrder(match_, keys[..n]);
      SelectsNext(at, keys[..n], match_, Filter(match_, keys[..n]), keys[n]);
      assert keys[..n] + [keys[n]] == keys;
      at := at + if match_(keys[n]) then [n] else [];
    }
  }

  /** The filter keeps exactly the matching keys, with their multiplicity. */
  lemma {:induction false} FilterMeaning(match_: string -> bool, keys: seq<string>, k: string)
    ensures multiset(Filter(match_, keys))[k] == if match_(k) then multiset(keys)[k] else 0
  {
    if keys != [] {
      var n := |keys| - 1;
      var init, last := keys[..n], keys[n];
      FilterMeaning(match_, init, k);
      assert keys == init + [last];
      assert multiset(keys) == multiset(init) + multiset{last};
      var kept: seq<string> := if match_(last) then [last] else [];
      assert Filter(match_, keys) == Filter(match_, init) + kept;
      assert multiset(Filter(match_, keys)) == multiset(Filter(match_, init)) + multiset(kept);
    }
  }

  /** `append(filtered, k)`: writes behind the read position. */
  method KeepKey(keys: array<string>, n: nat, i: nat)
    requires n <= i < keys.Length
    modifies keys
    ensures keys[..n + 1] == old(keys[..n]) + [old(keys[i])]
    ensures keys[i + 1..] == old(keys[i + 1..])
  {
    keys[n] := keys[i];
  }

  /** `filtered := keys[:0]` and append: writes into the array being read, yet yields the filter of the
      original keys, because the write position never passes the read position. */
  method FilterInPlace(keys: array<string>, pattern: string) returns (n: nat)
    modifies keys
    ensures n <= keys.Length
    ensures keys[..n] == Filter(KeyMatches(pattern), old(keys[..]))
  {
    ghost var original := keys[..];
    n := 0;
    for i := 0 to keys.Length
      invariant 0 <= n <= i
      invariant keys[..n] == Filter(KeyMatches(pattern), original[..i])
      invariant keys[i..] == original[i..]
    {
      var k := keys[i];
      assert k == keys[i..][0] == original[i..][0];
      assert original[i..][1..] == original[i + 1..] && keys[i..][1..] == keys[i + 1..];
      assert original[..i + 1][..i] == original[..i];
      var matched := Match(pattern, k);
      if matched {
        KeepKey(keys, n, i);
        n := n + 1;
      }
    }
    assert original[..keys.Length] == original;
  }
}
