/** Numbering of corrections (apps/api/persistence/harbor_lantern.py, `_revision_numbers`): a
    recursion that fills a memo and notices cycles. */
module TemporalNumbers {
  import opened Basics

  datatype Link = Link(assertion: string, supersedes: Option<string>)

  type Links = map<string, Link>

  datatype ChainError = Cyclic | UnknownPredecessor | CrossesAssertions

  /** The chain from `key` is known, stays in one assertion, and ends after `n` records. */
  ghost predicate Rooted(links: Links, key: string, n: nat)
    decreases n
  {
    && n >= 1 && key in links
    && if links[key].supersedes.None? then n == 1
       else
         var p := links[key].supersedes.value;
         p in links && links[p].assertion == links[key].assertion && Rooted(links, p, n - 1)
  }

  ghost predicate HasRoot(links: Links, key: string) {
    exists n: nat :: Rooted(links, key, n)
  }

  /** A chain has one length. */
  lemma {:induction false} RootedOnce(links: Links, key: string, n: nat, m: nat)
    requires Rooted(links, key, n) && Rooted(links, key, m)
    ensures n == m
    decreases n
  {
    if links[key].supersedes.Some? { RootedOnce(links, links[key].supersedes.value, n - 1, m - 1); }
  }

  /** The keys being visited, each the predecessor of the one before. */
  ghost predicate Path(links: Links, path: seq<string>) {
    && (forall i | 0 <= i < |path| :: path[i] in links)
    && forall i | 0 < i < |path| :: Follows(links, path[i - 1], path[i])
  }

  ghost predicate Follows(links: Links, key: string, p: string) {
    key in links && links[key].supersedes == Some(p)
  }

  /** Along a path chain lengths go down by one at each step. */
  lemma {:induction false} PathLengths(links: Links, path: seq<string>, i: nat, j: nat, n: nat)
    requires Path(links, path) && i <= j < |path| && Rooted(links, path[i], n)
    ensures n > j - i && Rooted(links, path[j], n - (j - i))
    decreases j - i
  {
    if i < j {
      assert Follows(links, path[i + 1 - 1], path[i + 1]);
      PathLengths(links, path, i + 1, j, n - 1);
    }
  }

  /** Nothing on a cycle has a root. */
  lemma CycleHasNoRoot(links: Links, path: seq<string>, key: string)
    requires Path(links, path + [key]) && key in path
    ensures !HasRoot(links, key)
  {
    if HasRoot(links, key) {
      var n: nat :| Rooted(links, key, n);
      var i :| 0 <= i < |path| && path[i] == key;
      PathLengths(links, path + [key], i, |path|, n);
      RootedOnce(links, key, n, n - (|path| - i));
    }
  }

  lemma RootOfPredecessor(links: Links, key: string)
    requires key in links && links[key].supersedes.Some?
    ensures HasRoot(links, key) ==> links[key].supersedes.value in links && HasRoot(links, links[key].supersedes.value)
    ensures HasRoot(links, key) ==> links[links[key].supersedes.value].assertion == links[key].assertion
  {
    if HasRoot(links, key) {
      var n: nat :| Rooted(links, key, n);
      assert Rooted(links, links[key].supersedes.value, n - 1);
    }
  }

  class RevisionNumbers {
    const links: Links
    var numbers: map<string, nat>
    var visiting: set<string>

    constructor (revisions: Links)
      ensures links == revisions && numbers == map[] && visiting == {}
    {
      links, numbers, visiting := revisions, map[], {};
    }

    /** Whatever is in the memo is right. */
    ghost predicate Valid()
      reads this
    {
      visiting <= links.Keys && forall k | k in numbers :: Rooted(links, k, numbers[k])
    }

    /** The nested `number`: a number exactly when the chain has a root, and then its length. */
    method Number(key: string, ghost path: seq<string>) returns (r: Result<nat, ChainError>)
      requires Valid() && key in links
      requires Path(links, path + [key]) && visiting == (set k | k in path)
      modifies this
      ensures Valid()
      ensures r.Ok? <==> HasRoot(links, key)
      ensures r.Ok? ==> Rooted(links, key, r.value) && key in numbers && visiting == old(visiting)
      ensures forall k | k in old(numbers) :: k in numbers
      decreases links.Keys - visiting
    {
      if key in numbers { return Ok(numbers[key]); }
      if key in visiting {
        CycleHasNoRoot(links, path, key);
        return Err(Cyclic);
      }
      ghost var before := visiting;
      visiting := visiting + {key};
      var link := links[key];
      var result := 1;
      if link.supersedes.Some? {
        var p := link.supersedes.value;
        RootOfPredecessor(links, key);
        if p !in links { return Err(UnknownPredecessor); }
        if links[p].assertion != link.assertion { return Err(CrossesAssertions); }
        LongerPath(links, path, key, p);
        assert visiting == (set k | k in path + [key]);
        var earlier := Number(p, path + [key]);
        if earlier.Err? { return Err(earlier.error); }
        result := earlier.value + 1;
      }
      assert Rooted(links, key, result);
      visiting := visiting - {key};
      assert visiting == before;
      numbers := numbers[key := result];
      return Ok(result);
    }

    /** The loop over the keys, in any order. */
    method NumberAll(keys: seq<string>) returns (r: Result<map<string, nat>, ChainError>)
      requires Valid() && visiting == {} && numbers == map[] && forall k :: k in keys <==> k in links
      modifies this
      ensures r.Ok? <==> forall k | k in links :: HasRoot(links, k)
      ensures r.Ok? ==>
          r.value.Keys == links.Keys && forall k | k in links :: k in r.value && Rooted(links, k, r.value[k])
    {
      for i := 0 to |keys|
        invariant Valid() && visiting == {} && forall k | k in keys[..i] :: k in numbers
      {
        assert keys[i] in links;
        SinglePath(links, keys[i]);
        var n := Number(keys[i], []);
        if n.Err? { return Err(n.error); }
        assert keys[..i + 1] == keys[..i] + [keys[i]];
      }
      assert keys[..|keys|] == keys;
      assert forall k | k in numbers :: k in links by { NumberedKnown(links, numbers); }
      assert forall k | k in links :: HasRoot(links, k) by { AllRooted(links, numbers); }
      return Ok(numbers);
    }
  }

  lemma NumberedKnown(links: Links, numbers: map<string, nat>)
    requires forall k | k in numbers :: Rooted(links, k, numbers[k])
    ensures forall k | k in numbers :: k in links
  {
  }

  lemma AllRooted(links: Links, numbers: map<string, nat>)
    requires forall k | k in links :: k in numbers && Rooted(links, k, numbers[k])
    ensures forall k | k in links :: HasRoot(links, k)
  {
  }

  lemma SinglePath(links: Links, key: string)
    requires key in links
    ensures Path(links, [] + [key])
  {
  }

  lemma LongerPath(links: Links, path: seq<string>, key: string, p: string)
    requires Path(links, path + [key]) && p in links && key in links && links[key].supersedes == Some(p)
    ensures Path(links, path + [key] + [p])
  {
    var longer := path + [key] + [p];
    forall i | 0 < i < |longer| ensures Follows(links, longer[i - 1], longer[i]) {
      if i <= |path| { assert Follows(links, (path + [key])[i - 1], (path + [key])[i]); }
    }
  }

  /** The numbers do not depend on the order of the keys: two numberings of the same records,
      each with the lengths of its chains, are the same. */
  lemma NumberingIsUnique(links: Links, one: map<string, nat>, two: map<string, nat>)
    requires one.Keys == links.Keys && two.Keys == links.Keys
    requires forall k | k in links :: k in one && k in two && Rooted(links, k, one[k]) && Rooted(links, k, two[k])
    ensures one == two
  {
    forall k | k in links ensures one[k] == two[k] { RootedOnce(links, k, one[k], two[k]); }
  }

  /** Corrections are numbered one after another from one: the predecessor of number n has n - 1. */
  lemma NumbersAreConsecutive(links: Links, numbers: map<string, nat>, key: string)
    requires numbers.Keys == links.Keys
        && (forall k | k in links :: k in numbers && Rooted(links, k, numbers[k])) && key in links
    ensures key in numbers && (numbers[key] == 1 <==> links[key].supersedes.None?)
    ensures links[key].supersedes.Some? ==>
        links[key].supersedes.value in numbers && numbers[key] == numbers[links[key].supersedes.value] + 1
  {
    if links[key].supersedes.Some? {
      var p := links[key].supersedes.value;
      RootedOnce(links, p, numbers[p], numbers[key] - 1);
    }
  }
}
