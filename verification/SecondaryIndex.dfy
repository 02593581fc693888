/** The inverted index: for every token, the sorted list of the keys whose latest tokens include it. */
module SecondaryIndexes {
  import opened Types
  import opened Sequences

  type Token = int
  type Postings = map<Token, seq<Key>>
  type Documents = map<Key, seq<Token>>

  function List(p: Postings, t: Token): seq<Key> {
    if t in p then p[t] else []
  }

  ghost predicate HasToken(docs: Documents, k: Key, t: Token) {
    k in docs && t in docs[k]
  }

  /** Lists are strictly sorted, and a token without keys has no list. */
  ghost predicate ListsHold(p: Postings) {
    forall t :: t in p ==> Sorted(p[t]) && p[t] != []
  }

  ghost predicate Agrees(p: Postings, docs: Documents) {
    forall t, k :: k in List(p, t) <==> HasToken(docs, k, t)
  }

  function WithPosting(p: Postings, t: Token, k: Key): Postings {
    var list := List(p, t);
    var pos := FirstAtLeast(list, k);
    if pos < |list| && list[pos] == k then p else p[t := InsertAt(list, pos, k)]
  }

  function WithoutPosting(p: Postings, t: Token, k: Key): Postings {
    var list := List(p, t);
    var pos := FirstAtLeast(list, k);
    if pos < |list| && list[pos] == k then
      if |list| == 1 then p - {t} else p[t := RemoveAt(list, pos)]
    else p
  }

  lemma ListSorted(p: Postings, t: Token)
    requires ListsHold(p)
    ensures Sorted(List(p, t))
  {
  }

  lemma AddsPosting(p: Postings, t: Token, k: Key)
    requires ListsHold(p)
    ensures ListsHold(WithPosting(p, t, k))
    ensures forall u, l :: l in List(WithPosting(p, t, k), u) <==> l in List(p, u) || (u == t && l == k)
  {
    var list := List(p, t);
    var pos := FirstAtLeast(list, k);
    if k in list {
      FirstAtLeastFinds(list, k);
    } else {
      SortedInsert(list, k);
      InsertAtMembers(list, pos, k);
    }
  }

  lemma RemovesPosting(p: Postings, t: Token, k: Key)
    requires ListsHold(p)
    ensures ListsHold(WithoutPosting(p, t, k))
    ensures forall u, l :: l in List(WithoutPosting(p, t, k), u) <==> l in List(p, u) && !(u == t && l == k)
  {
    var list := List(p, t);
    var pos := FirstAtLeast(list, k);
    if k in list {
      FirstAtLeastFinds(list, k);
      SortedRemove(list, pos);
      if |list| == 1 { assert list == [k]; }
    }
  }

  // ---------- intersecting ----------

  ghost predicate InAll(lists: seq<seq<Key>>, k: Key) {
    forall i :: 0 <= i < |lists| ==> k in lists[i]
  }

  /** The common elements of two sorted lists, in one pass over both. */
  method IntersectSorted(a: seq<Key>, b: seq<Key>) returns (res: seq<Key>)
    requires Sorted(a) && Sorted(b)
    ensures Sorted(res) && forall k :: k in res <==> k in a && k in b
  {
    res := [];
    var i, j := 0, 0;
    while i < |a| && j < |b|
      invariant i <= |a| && j <= |b| && Sorted(res)
      invariant forall k :: k in res <==> k in a[..i] && k in b[..j]
      invariant forall k :: k in a[..i] && k in b ==> k in b[..j]
      invariant forall k :: k in b[..j] && k in a ==> k in a[..i]
      decreases |a| - i + |b| - j
    {
      TakeStep(a, i);
      TakeStep(b, j);
      if a[i] == b[j] {
        AppendSorted(res, a, i);
        res, i, j := res + [a[i]], i + 1, j + 1;
      } else if a[i] < b[j] {
        NotAhead(b, j, a[i]);
        i := i + 1;
      } else {
        NotAhead(a, i, b[j]);
        j := j + 1;
      }
    }
    assert a[..|a|] == a && b[..|b|] == b;
  }

  lemma TakeStep(s: seq<Key>, i: nat)
    requires Sorted(s) && i < |s|
    ensures forall k :: k in s[..i + 1] <==> k in s[..i] || k == s[i]
    ensures s[i] !in s[..i]
  {
  }

  lemma AppendSorted(res: seq<Key>, a: seq<Key>, i: nat)
    requires Sorted(res) && Sorted(a) && i < |a| && forall k :: k in res ==> k in a[..i]
    ensures Sorted(res + [a[i]])
  {
    forall j | 0 <= j < |res|
      ensures res[j] < a[i]
    {
      assert res[j] in res;
    }
  }

  /** A key below the next one of a sorted list is in it only if it has been passed. */
  lemma NotAhead(s: seq<Key>, j: nat, k: Key)
    requires Sorted(s) && j < |s| && k < s[j]
    ensures k in s ==> k in s[..j]
  {
  }

  function InsertBySize(list: seq<Key>, lists: seq<seq<Key>>): seq<seq<Key>> {
    if lists == [] || |list| < |lists[0]| then [list] + lists else [lists[0]] + InsertBySize(list, lists[1..])
  }

  /** The lists, shortest first. */
  function SortBySize(lists: seq<seq<Key>>): seq<seq<Key>> {
    if lists == [] then [] else InsertBySize(lists[|lists| - 1], SortBySize(lists[..|lists| - 1]))
  }

  lemma {:induction false} InsertBySizeKeeps(list: seq<Key>, lists: seq<seq<Key>>)
    ensures multiset(InsertBySize(list, lists)) == multiset(lists) + multiset{list}
    ensures forall i :: 0 <= i < |InsertBySize(list, lists)| - 1 && BySize(lists) ==>
      |InsertBySize(list, lists)[i]| <= |InsertBySize(list, lists)[i + 1]|
    ensures |InsertBySize(list, lists)| > 0
    ensures InsertBySize(list, lists)[0] == list || (lists != [] && InsertBySize(list, lists)[0] == lists[0])
    decreases |lists|
  {
    if lists != [] && |list| >= |lists[0]| {
      InsertBySizeKeeps(list, lists[1..]);
      assert lists == [lists[0]] + lists[1..];
    }
  }

  ghost predicate BySize(lists: seq<seq<Key>>) {
    forall i :: 0 <= i < |lists| - 1 ==> |lists[i]| <= |lists[i + 1]|
  }

  lemma {:induction false} SortBySizeKeeps(lists: seq<seq<Key>>)
    ensures multiset(SortBySize(lists)) == multiset(lists) && BySize(SortBySize(lists))
    decreases |lists|
  {
    if lists != [] {
      var n := |lists| - 1;
      SortBySizeKeeps(lists[..n]);
      InsertBySizeKeeps(lists[n], SortBySize(lists[..n]));
      assert lists == lists[..n] + [lists[n]];
    }
  }

  lemma SortedInAll(lists: seq<seq<Key>>, k: Key)
    ensures InAll(SortBySize(lists), k) <==> InAll(lists, k)
    ensures |SortBySize(lists)| == |lists|
    ensures (forall i :: 0 <= i < |lists| ==> Sorted(lists[i])) ==>
      forall i :: 0 <= i < |SortBySize(lists)| ==> Sorted(SortBySize(lists)[i])
  {
    var s := SortBySize(lists);
    SortBySizeKeeps(lists);
    assert |multiset(s)| == |multiset(lists)|;
    forall i | 0 <= i < |s|
      ensures s[i] in lists
    {
      assert s[i] in multiset(s);
    }
    forall i | 0 <= i < |lists|
      ensures lists[i] in s
    {
      assert lists[i] in multiset(lists);
    }
  }

  // ---------- the index ----------

  /** The postings agree with the documents, but for key k, which is under exactly the tokens that satisfy it. */
  ghost predicate AgreesBut(p: Postings, docs: Documents, k: Key, tokens: seq<Token>) {
    forall t, l :: l in List(p, t) <==> if l == k then t in tokens else HasToken(docs, l, t)
  }

  /** Key k is under no token but those still to remove. */
  ghost predicate AgreesUpTo(p: Postings, docs: Documents, k: Key, rest: seq<Token>) {
    && (forall t, l :: l != k ==> (l in List(p, t) <==> HasToken(docs, l, t)))
    && (forall t :: k in List(p, t) ==> t in rest)
  }

  /** The key is under every one of the tokens. */
  ghost predicate HasAll(docs: Documents, k: Key, tokens: seq<Token>) {
    forall i :: 0 <= i < |tokens| ==> HasToken(docs, k, tokens[i])
  }

  lemma AddStep(p: Postings, docs: Documents, k: Key, tokens: seq<Token>, i: nat)
    requires ListsHold(p) && i < |tokens| && AgreesBut(p, docs, k, tokens[..i])
    ensures ListsHold(WithPosting(p, tokens[i], k)) && AgreesBut(WithPosting(p, tokens[i], k), docs, k, tokens[..i + 1])
  {
    AddsPosting(p, tokens[i], k);
    forall t
      ensures t in tokens[..i + 1] <==> t in tokens[..i] || t == tokens[i]
    {
      assert tokens[..i + 1] == tokens[..i] + [tokens[i]];
    }
  }

  class SecondaryIndex {
    var postings: Postings
    var docTokens: Documents

    ghost predicate Valid()
      reads this
    {
      ListsHold(postings) && Agrees(postings, docTokens) && forall k :: k in docTokens ==> docTokens[k] != []
    }

    constructor ()
      ensures Valid() && docTokens == map[]
    {
      postings, docTokens := map[], map[];
    }

    /** Takes the key off the lists of all these tokens, some of which may be repeated. */
    method RemovePostings(k: Key, tokens: seq<Token>)
      requires ListsHold(postings) && AgreesUpTo(postings, docTokens, k, tokens)
      modifies `postings
      ensures ListsHold(postings) && AgreesUpTo(postings, docTokens, k, [])
    {
      for i := 0 to |tokens|
        invariant ListsHold(postings) && AgreesUpTo(postings, docTokens, k, tokens[i..])
      {
        RemovesPosting(postings, tokens[i], k);
        assert tokens[i..] == [tokens[i]] + tokens[i + 1..];
        postings := WithoutPosting(postings, tokens[i], k);
      }
    }

    /** Puts the key on the lists of all these tokens. */
    method AddPostings(k: Key, tokens: seq<Token>)
      requires ListsHold(postings) && AgreesBut(postings, docTokens, k, [])
      modifies `postings
      ensures ListsHold(postings) && AgreesBut(postings, docTokens, k, tokens)
    {
      for i := 0 to |tokens|
        invariant ListsHold(postings) && AgreesBut(postings, docTokens, k, tokens[..i])
      {
        AddStep(postings, docTokens, k, tokens, i);
        postings := WithPosting(postings, tokens[i], k);
      }
      assert tokens[..|tokens|] == tokens;
    }

    /** The key's tokens are now these, and no other key's have changed. */
    method Index(k: Key, tokens: seq<Token>)
      requires Valid()
      modifies this
      ensures Valid()
      ensures docTokens == if tokens == [] then old(docTokens) - {k} else old(docTokens)[k := tokens]
    {
      if k in docTokens {
        RemovePostings(k, docTokens[k]);
      }
      assert AgreesBut(postings, docTokens, k, []);
      if tokens == [] {
        docTokens := docTokens - {k};
        return;
      }
      docTokens := docTokens[k := tokens];
      AddPostings(k, tokens);
    }

    method Unindex(k: Key)
      requires Valid()
      modifies this
      ensures Valid() && docTokens == old(docTokens) - {k}
    {
      if k !in docTokens {
        assert docTokens - {k} == docTokens;
        return;
      }
      RemovePostings(k, docTokens[k]);
      docTokens := docTokens - {k};
    }

    /** The keys whose tokens include the token, in order. */
    method Lookup(t: Token) returns (keys: seq<Key>)
      requires Valid()
      ensures Sorted(keys) && forall k :: k in keys <==> HasToken(docTokens, k, t)
    {
      ListSorted(postings, t);
      return List(postings, t);
    }

    /** The lists of the tokens, or nothing if one of them has none. */
    method ListsOf(tokens: seq<Token>) returns (lists: Option<seq<seq<Key>>>)
      requires Valid()
      ensures lists.None? ==> exists i :: 0 <= i < |tokens| && List(postings, tokens[i]) == []
      ensures lists.Some? ==>
        |lists.value| == |tokens| && forall i :: 0 <= i < |tokens| ==> lists.value[i] == List(postings, tokens[i])
    {
      var done := [];
      for i := 0 to |tokens|
        invariant |done| == i && forall j :: 0 <= j < i ==> done[j] == List(postings, tokens[j])
      {
        var l := List(postings, tokens[i]);
        if l == [] {
          return None;
        }
        done := done + [l];
      }
      return Some(done);
    }

    /** Exactly the keys that have all the tokens, in order. */
    method LookupIntersect(tokens: seq<Token>) returns (keys: seq<Key>)
      requires Valid()
      ensures Sorted(keys)
      ensures forall k :: k in keys <==> tokens != [] && HasAll(docTokens, k, tokens)
    {
      if tokens == [] {
        return [];
      }
      if |tokens| == 1 {
        keys := Lookup(tokens[0]);
        return;
      }
      var lists := ListsOf(tokens);
      if lists.None? {
        NoneHasAll(postings, docTokens, tokens);
        return [];
      }
      SortedInAll(lists.value, 0);
      keys := IntersectAll(SortBySize(lists.value));
      forall k
        ensures InAll(SortBySize(lists.value), k) <==> InAll(lists.value, k)
        ensures InAll(lists.value, k) <==> HasAll(docTokens, k, tokens)
      {
        SortedInAll(lists.value, k);
        InAllLists(postings, docTokens, tokens, lists.value, k);
      }
    }

    /** Intersects the lists one after the other, stopping as soon as nothing is left. */
    method IntersectAll(lists: seq<seq<Key>>) returns (res: seq<Key>)
      requires lists != [] && forall i :: 0 <= i < |lists| ==> Sorted(lists[i])
      ensures Sorted(res) && forall k :: k in res <==> InAll(lists, k)
    {
      res := lists[0];
      for i := 1 to |lists|
        invariant Sorted(res) && forall k :: k in res <==> InAll(lists[..i], k)
      {
        res := IntersectSorted(res, lists[i]);
        InAllStep(lists, i);
        if res == [] {
          InAllPrefix(lists, i + 1);
          return;
        }
      }
      assert lists[..|lists|] == lists;
    }
  }

  lemma InAllStep(lists: seq<seq<Key>>, i: nat)
    requires i < |lists|
    ensures forall k :: InAll(lists[..i + 1], k) <==> InAll(lists[..i], k) && k in lists[i]
  {
  }

  lemma InAllPrefix(lists: seq<seq<Key>>, i: nat)
    requires i <= |lists|
    ensures forall k :: InAll(lists, k) ==> InAll(lists[..i], k)
  {
  }

  lemma NoneHasAll(p: Postings, docs: Documents, tokens: seq<Token>)
    requires Agrees(p, docs) && exists i :: 0 <= i < |tokens| && List(p, tokens[i]) == []
    ensures forall k :: !HasAll(docs, k, tokens)
  {
  }

  lemma InAllLists(p: Postings, docs: Documents, tokens: seq<Token>, lists: seq<seq<Key>>, k: Key)
    requires Agrees(p, docs) && |lists| == |tokens| && forall i :: 0 <= i < |tokens| ==> lists[i] == List(p, tokens[i])
    ensures InAll(lists, k) <==> HasAll(docs, k, tokens)
  {
  }
}
