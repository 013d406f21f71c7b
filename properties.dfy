/** What the handler promises, stated over its specification `Handle`. */
module TodoProperties {
  import opened Results
  import opened Strings
  import opened TodoStore
  import opened TodoHandler

  /**
   * Splitting always yields a segment, so the guard on the number of segments
   * never skips the dispatch; the second segment exists, and the handler
   * answers instead of panicking, exactly when the path contains '/'.
   */
  lemma IndexingSafety(path: string, before: set<string>, fault: Option<string>, scan: seq<string>)
    ensures |Split(path, '/')| >= 1
    ensures Dispatch(path).Some? <==> '/' in path
    ensures Handle(path, before, fault, scan).0.Panicked? <==> '/' !in path
  {
    SplitHasTwoPieces(path, '/');
  }

  /** The verb is the segment after the first '/', and the item is everything after the second. */
  lemma {:induction false} SegmentsOfVerbAndItem(head: string, verb: string, rest: string)
    requires '/' !in head && '/' !in verb
    ensures var segments := Split(head + "/" + verb + "/" + rest, '/');
      |segments| >= 2 && segments[1] == verb && Identifier(segments) == rest
  {
    assert head + "/" + verb + "/" + rest == head + ['/'] + (verb + ['/'] + rest);
    SplitAtFirstSeparator(head, '/', verb + ['/'] + rest);
    SplitAtFirstSeparator(verb, '/', rest);
    var segments := [head] + ([verb] + Split(rest, '/'));
    assert segments[2..] == Split(rest, '/');
    JoinSplit(rest, '/');
  }

  /** With no '/' after the verb the item is the empty string. */
  lemma {:induction false} SegmentsOfVerbOnly(head: string, verb: string)
    requires '/' !in head && '/' !in verb
    ensures var segments := Split(head + "/" + verb, '/');
      segments == [head, verb] && Identifier(segments) == ""
  {
    SplitAtFirstSeparator(head, '/', verb);
    SplitWithoutSeparator(verb, '/');
  }

  /** A verb other than list, add and complete: no store call, the path echoed, status 200. */
  lemma UnrecognisedVerb(path: string, before: set<string>, fault: Option<string>, scan: seq<string>)
    requires var segments := Split(path, '/');
      |segments| >= 2 && segments[1] != "list" && segments[1] != "add" && segments[1] != "complete"
    ensures CallsFor(path) == []
    ensures Handle(path, before, fault, scan) == (Reply(Respond(200, path)), before)
  {
  }

  /** A successful add answers "Added", stores the item and changes no other name. */
  lemma SuccessfulAdd(path: string, x: string, before: set<string>, scan: seq<string>)
    requires Dispatch(path) == Some(AddItem(x))
    ensures CallsFor(path) == [Put(x)]
    ensures Handle(path, before, None, scan).0 == Reply(Respond(200, "Added"))
    ensures var after := Handle(path, before, None, scan).1;
      x in after && forall y :: y != x ==> (y in after <==> y in before)
  {
  }

  /** A successful complete answers "Completed", removes the item and changes no other name. */
  lemma SuccessfulComplete(path: string, x: string, before: set<string>, scan: seq<string>)
    requires Dispatch(path) == Some(CompleteItem(x))
    ensures CallsFor(path) == [Delete(x)]
    ensures Handle(path, before, None, scan).0 == Reply(Respond(200, "Completed"))
    ensures var after := Handle(path, before, None, scan).1;
      x !in after && forall y :: y != x ==> (y in after <==> y in before)
  {
  }

  /**
   * A successful list answers the stored names joined by newlines and leaves
   * the store as it was: the empty string for an empty store, and otherwise a
   * text that splits back into the listing when no name holds a newline.
   */
  lemma SuccessfulList(path: string, before: set<string>, scan: seq<string>)
    requires Dispatch(path) == Some(ListItems)
    requires IsListing(scan, before)
    ensures CallsFor(path) == [Scan]
    ensures Handle(path, before, None, scan) == (Reply(Respond(200, Join(scan, '\n'))), before)
    ensures before == {} ==> Join(scan, '\n') == ""
    ensures before != {} && (forall n :: n in before ==> '\n' !in n) ==> Split(Join(scan, '\n'), '\n') == scan
  {
    ListingSize(scan, before);
    if before != {} && (forall n :: n in before ==> '\n' !in n) {
      SplitJoin(scan, '\n');
    }
  }

  /**
   * Status 500 comes exactly from a failed store round trip, with the error
   * text as the message and the store untouched; every other reply is 200.
   */
  lemma StoreErrors(path: string, before: set<string>, fault: Option<string>, scan: seq<string>)
    requires Handle(path, before, fault, scan).0.Reply?
    ensures var resp := Handle(path, before, fault, scan).0.response;
      && (resp.statusCode == 500 <==> fault.Some? && CallsFor(path) != [])
      && (resp.statusCode == 500 ==> resp.body.message == fault.value && Handle(path, before, fault, scan).1 == before)
      && (resp.statusCode != 500 ==> resp.statusCode == 200)
  {
  }

  /** Every reply carries exactly the two fixed headers and is not base64-encoded. */
  lemma ResponseShape(path: string, before: set<string>, fault: Option<string>, scan: seq<string>)
    requires Handle(path, before, fault, scan).0.Reply?
    ensures var resp := Handle(path, before, fault, scan).0.response;
      && resp.headers.Keys == {"Content-Type", "X-MyCompany-Func-Reply"}
      && resp.headers["Content-Type"] == "application/json"
      && resp.headers["X-MyCompany-Func-Reply"] == "hello-handler"
      && !resp.isBase64Encoded
      && resp.statusCode in {200, 500}
  {
  }

  /** Each request makes at most one round trip, and one exactly when the verb selects a store operation. */
  lemma AtMostOneCall(path: string)
    ensures |CallsFor(path)| <= 1
    ensures |CallsFor(path)| == 1 <==> Dispatch(path).Some? && Dispatch(path).value != Unrecognised
  {
  }

  /** `/add/x` adds the item `x`, whatever `x` holds, '/' included. */
  lemma {:induction false} AddPath(x: string)
    ensures Dispatch("/add/" + x) == Some(AddItem(x))
  {
    assert "/add/" + x == "" + "/" + "add" + "/" + x;
    SegmentsOfVerbAndItem("", "add", x);
  }

  /** `/complete/x` completes the item `x`. */
  lemma {:induction false} CompletePath(x: string)
    ensures Dispatch("/complete/" + x) == Some(CompleteItem(x))
  {
    assert "/complete/" + x == "" + "/" + "complete" + "/" + x;
    SegmentsOfVerbAndItem("", "complete", x);
  }

  /** `/list` lists. */
  lemma {:induction false} ListPath()
    ensures Dispatch("/list") == Some(ListItems)
  {
    assert "/list" == "" + "/" + "list";
    SegmentsOfVerbOnly("", "list");
  }

  /** `/add/groceries/milk` stores the name `groceries/milk`. */
  lemma {:induction false} NestedIdentifier()
    ensures Dispatch("/add/groceries/milk") == Some(AddItem("groceries/milk"))
  {
    AddPath("groceries/milk");
    assert "/add/" + "groceries/milk" == "/add/groceries/milk";
  }

  /** `/add` alone stores the empty name. */
  lemma {:induction false} AddWithoutItem()
    ensures Dispatch("/add") == Some(AddItem(""))
  {
    assert "/add" == "" + "/" + "add";
    SegmentsOfVerbOnly("", "add");
  }

  /** `/bogus` echoes the path with status 200 and leaves the store alone. */
  lemma {:induction false} BogusEchoes(before: set<string>, fault: Option<string>, scan: seq<string>)
    ensures Handle("/bogus", before, fault, scan) == (Reply(Respond(200, "/bogus")), before)
  {
    assert "/bogus" == "" + "/" + "bogus";
    SegmentsOfVerbOnly("", "bogus");
  }

  /** `/list` on the empty store answers the empty message. */
  lemma {:induction false} ListEmptyStore(scan: seq<string>)
    requires IsListing(scan, {})
    ensures Handle("/list", {}, None, scan) == (Reply(Respond(200, "")), {})
  {
    ListPath();
    SuccessfulList("/list", {}, scan);
  }

  /** After a successful `/add/x`, a successful `/list` shows `x` exactly once. */
  lemma {:induction false} AddThenListOnce(x: string, before: set<string>, scan: seq<string>)
    requires IsListing(scan, before + {x})
    ensures Handle("/add/" + x, before, None, []) == (Reply(Respond(200, "Added")), before + {x})
    ensures Handle("/list", before + {x}, None, scan) == (Reply(Respond(200, Join(scan, '\n'))), before + {x})
    ensures multiset(scan)[x] == 1
  {
    AddPath(x);
    ListPath();
    ListedOnce(scan, before + {x}, x);
  }

  /** Adding the same item twice leaves the store as adding it once. */
  lemma {:induction false} AddTwice(x: string, before: set<string>)
    ensures var once := Handle("/add/" + x, before, None, []).1;
      Handle("/add/" + x, once, None, []).1 == once == before + {x}
  {
    AddPath(x);
  }

  /** Completing an absent item succeeds and changes nothing. */
  lemma {:induction false} CompleteAbsent(x: string, before: set<string>)
    requires x !in before
    ensures Handle("/complete/" + x, before, None, []) == (Reply(Respond(200, "Completed")), before)
  {
    CompletePath(x);
    assert before - {x} == before;
  }

  /** After `/add/x` and then `/complete/x`, no listing of the store shows `x`. */
  lemma {:induction false} AddThenComplete(x: string, before: set<string>, scan: seq<string>)
    requires IsListing(scan, Handle("/complete/" + x, Handle("/add/" + x, before, None, []).1, None, []).1)
    ensures Handle("/complete/" + x, Handle("/add/" + x, before, None, []).1, None, []).1 == before - {x}
    ensures x !in scan
  {
    AddPath(x);
    CompletePath(x);
  }
}
