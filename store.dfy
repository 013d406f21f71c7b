/**
 * The DynamoDB table "todos", keyed by the single string attribute "name",
 * seen as the set of names it holds. Each operation makes one round trip
 * to the external store; whether that round trip fails, and with which
 * error text, is decided outside the program and arrives as `fault`.
 */
module TodoStore {
  import opened Results

  /** One round trip to the store: a Scan, a PutItem or a DeleteItem. */
  datatype StoreCall = Scan | Put(name: string) | Delete(name: string)

  /** No name occurs twice in `s`. */
  predicate Distinct(s: seq<string>)
  {
    forall i, j :: 0 <= i < j < |s| ==> s[i] != s[j]
  }

  /** `s` lists every name of `names` exactly once, in some order. */
  predicate IsListing(s: seq<string>, names: set<string>)
  {
    && Distinct(s)
    && (forall i :: 0 <= i < |s| ==> s[i] in names)
    && (forall x :: x in names ==> x in s)
  }

  /** Every set of names can be listed (a scan always has some order). */
  lemma {:induction false} ListingExists(names: set<string>)
    ensures exists s :: IsListing(s, names)
    decreases names
  {
    if names == {} {
      assert IsListing([], names);
    } else {
      var x :| x in names;
      ListingExists(names - {x});
      var s :| IsListing(s, names - {x});
      assert IsListing(s + [x], names);
    }
  }

  /** A name in a listing occurs in it exactly once. */
  lemma {:induction false} ListedOnce(s: seq<string>, names: set<string>, x: string)
    requires IsListing(s, names)
    requires x in names
    ensures multiset(s)[x] == 1
  {
    DistinctOccursOnce(s, x);
  }

  lemma {:induction false} DistinctOccursOnce(s: seq<string>, x: string)
    requires Distinct(s)
    requires x in s
    ensures multiset(s)[x] == 1
  {
    assert s == [s[0]] + s[1..];
    assert multiset(s) == multiset{s[0]} + multiset(s[1..]);
    if s[0] == x {
      assert x !in s[1..];
    } else {
      DistinctOccursOnce(s[1..], x);
    }
  }

  /** A listing has one entry per stored name; in particular the empty store lists nothing. */
  lemma {:induction false} ListingSize(s: seq<string>, names: set<string>)
    requires IsListing(s, names)
    ensures |s| == |names|
  {
    if s == [] {
      assert names == {};
    } else {
      var rest := names - {s[0]};
      assert IsListing(s[1..], rest) by {
        forall i | 0 <= i < |s| - 1
          ensures s[1..][i] in rest
        {
          assert s[1..][i] == s[i + 1] && s[i + 1] != s[0];
        }
        forall x | x in rest
          ensures x in s[1..]
        {
          assert x in s && x != s[0];
          var k :| 0 <= k < |s| && s[k] == x;
          assert s[1..][k - 1] == x;
        }
      }
      ListingSize(s[1..], rest);
    }
  }

  class TodoTable {
    /** The names currently stored; the key makes them unique. */
    var names: set<string>
    /** The round trips made so far, oldest first. */
    ghost var calls: seq<StoreCall>

    constructor ()
      ensures names == {} && calls == []
    {
      names := {};
      calls := [];
    }

    /**
     * `List`: scan the table and collect the name of every row.
     * The scan visits the rows in an order the store chooses.
     */
    method List(fault: Option<string>) returns (r: Result<seq<string>>)
      modifies this`calls
      ensures calls == old(calls) + [Scan]
      ensures fault.Some? ==> r == Failure(fault.value)
      ensures fault.None? ==> r.Success? && IsListing(r.value, names)
    {
      calls := calls + [Scan];
      if fault.Some? {
        return Failure(fault.value);
      }
      var results: seq<string> := [];
      var rows := names;
      while rows != {}
        invariant rows <= names
        invariant Distinct(results)
        invariant forall x :: x in results <==> x in names && x !in rows
        decreases rows
      {
        var row :| row in rows;
        results := results + [row];
        rows := rows - {row};
      }
      return Success(results);
    }

    /** `Add`: put an item with the given name; an existing one is overwritten. */
    method Add(v: string, fault: Option<string>) returns (err: Option<string>)
      modifies this
      ensures calls == old(calls) + [Put(v)]
      ensures err == fault
      ensures names == if fault.None? then old(names) + {v} else old(names)
    {
      calls := calls + [Put(v)];
      if fault.None? {
        names := names + {v};
      }
      err := fault;
    }

    /** `Complete`: delete the item with the given name; an absent name is not an error. */
    method Complete(v: string, fault: Option<string>) returns (err: Option<string>)
      modifies this
      ensures calls == old(calls) + [Delete(v)]
      ensures err == fault
      ensures names == if fault.None? then old(names) - {v} else old(names)
    {
      calls := calls + [Delete(v)];
      if fault.None? {
        names := names - {v};
      }
      err := fault;
    }
  }
}
