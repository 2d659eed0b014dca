/**
 First-seen deduplication by document id: the bookkeeping the search (an
 insertion-ordered map keyed by id) and the listings (a set of seen ids next
 to the result array) share. A document is emitted the first time its id
 comes by and skipped every later time.
 */
module Aggregation {
  import opened Tickets

  function IdSet(docs: seq<Doc>): set<string> {
    set d | d in docs :: d.id
  }

  predicate DistinctIds(docs: seq<Doc>) {
    forall i, j :: 0 <= i < j < |docs| ==> docs[i].id != docs[j].id
  }

  function Concat(pages: seq<seq<Doc>>): seq<Doc> {
    if pages == [] then [] else pages[0] + Concat(pages[1..])
  }

  /** The position of the first document carrying `id`. */
  function FirstPos(docs: seq<Doc>, id: string): (p: nat)
    requires id in IdSet(docs)
    ensures p < |docs| && docs[p].id == id
    ensures forall j :: 0 <= j < p ==> docs[j].id != id
  {
    if docs[0].id == id then 0
    else
      assert id in IdSet(docs[1..]) by {
        var d :| d in docs && d.id == id;
        assert d in docs[1..];
      }
      FirstPos(docs[1..], id) + 1
  }

  /** Walks `docs` in order, keeping a document only when its id is neither in
      `seen` nor the id of a document kept before it. */
  function Dedup(docs: seq<Doc>, seen: set<string>): (r: seq<Doc>)
    ensures DistinctIds(r)
    ensures |r| <= |docs|
    ensures forall k :: 0 <= k < |r| ==> r[k] in docs && r[k].id !in seen
    decreases |docs|
  {
    if docs == [] then []
    else if docs[0].id in seen then Dedup(docs[1..], seen)
    else [docs[0]] + Dedup(docs[1..], seen + {docs[0].id})
  }

  /** The ids kept are exactly the ids of the input that were not already
      seen. */
  lemma {:induction false} DedupIds(docs: seq<Doc>, seen: set<string>)
    ensures IdSet(Dedup(docs, seen)) == IdSet(docs) - seen
    decreases |docs|
  {
    if docs != [] {
      IdSetCons(docs);
      var d := docs[0];
      if d.id in seen {
        DedupIds(docs[1..], seen);
      } else {
        var rest := Dedup(docs[1..], seen + {d.id});
        DedupIds(docs[1..], seen + {d.id});
        IdSetCons([d] + rest);
        assert ([d] + rest)[1..] == rest;
      }
    }
  }

  lemma IdSetCons(docs: seq<Doc>)
    requires docs != []
    ensures IdSet(docs) == {docs[0].id} + IdSet(docs[1..])
  {
    assert docs == [docs[0]] + docs[1..];
    forall x | x in IdSet(docs)
      ensures x in {docs[0].id} + IdSet(docs[1..])
    {
      var d :| d in docs && d.id == x;
      if d != docs[0] {
        assert d in docs[1..];
      }
    }
  }

  lemma IdSetAppend(a: seq<Doc>, b: seq<Doc>)
    ensures IdSet(a + b) == IdSet(a) + IdSet(b)
  {
    forall x | x in IdSet(a + b)
      ensures x in IdSet(a) + IdSet(b)
    {
      var d :| d in a + b && d.id == x;
      if d in a {
        assert x in IdSet(a);
      } else {
        assert d in b;
      }
    }
    forall x | x in IdSet(a) + IdSet(b)
      ensures x in IdSet(a + b)
    {
      if x in IdSet(a) {
        var d :| d in a && d.id == x;
        assert d in a + b;
      } else {
        var d :| d in b && d.id == x;
        assert d in a + b;
      }
    }
  }

  lemma FirstPosShift(docs: seq<Doc>, id: string)
    requires id in IdSet(docs) && docs[0].id != id
    ensures id in IdSet(docs[1..])
    ensures FirstPos(docs, id) == FirstPos(docs[1..], id) + 1
  {
    IdSetCons(docs);
  }

  /** `r[k]` is the first document of `docs` carrying its id. */
  ghost predicate FirstOfItsId(docs: seq<Doc>, r: seq<Doc>, k: nat)
    requires k < |r|
  {
    r[k].id in IdSet(docs) && r[k] == docs[FirstPos(docs, r[k].id)]
  }

  /** `r[k1]`'s id first appears in `docs` before `r[k2]`'s. */
  ghost predicate FirstSeenBefore(docs: seq<Doc>, r: seq<Doc>, k1: nat, k2: nat)
    requires k1 < |r| && k2 < |r|
  {
    && r[k1].id in IdSet(docs) && r[k2].id in IdSet(docs)
    && FirstPos(docs, r[k1].id) < FirstPos(docs, r[k2].id)
  }

  /** Every kept document is the FIRST document of the input carrying its id. */
  lemma {:induction false} DedupKeepsFirstOccurrences(docs: seq<Doc>, seen: set<string>)
    ensures forall k :: 0 <= k < |Dedup(docs, seen)| ==> FirstOfItsId(docs, Dedup(docs, seen), k)
    decreases |docs|
  {
    if docs != [] {
      var d := docs[0];
      var tail := docs[1..];
      IdSetCons(docs);
      if d.id in seen {
        var r := Dedup(tail, seen);
        DedupKeepsFirstOccurrences(tail, seen);
        forall k | 0 <= k < |r|
          ensures FirstOfItsId(docs, r, k)
        {
          assert FirstOfItsId(tail, r, k);
          FirstPosShift(docs, r[k].id);
        }
      } else {
        var rest := Dedup(tail, seen + {d.id});
        var r := [d] + rest;
        DedupKeepsFirstOccurrences(tail, seen + {d.id});
        forall k | 0 <= k < |r|
          ensures FirstOfItsId(docs, r, k)
        {
          if k > 0 {
            assert r[k] == rest[k - 1];
            assert FirstOfItsId(tail, rest, k - 1);
            FirstPosShift(docs, r[k].id);
          }
        }
      }
    }
  }

  /** The kept documents come in the order in which their ids first appear. */
  lemma {:induction false} DedupKeepsFirstSeenOrder(docs: seq<Doc>, seen: set<string>)
    ensures forall k1, k2 :: 0 <= k1 < k2 < |Dedup(docs, seen)| ==>
              FirstSeenBefore(docs, Dedup(docs, seen), k1, k2)
    decreases |docs|
  {
    if docs != [] {
      var d := docs[0];
      var tail := docs[1..];
      IdSetCons(docs);
      if d.id in seen {
        var r := Dedup(tail, seen);
        DedupKeepsFirstSeenOrder(tail, seen);
        forall k1, k2 | 0 <= k1 < k2 < |r|
          ensures FirstSeenBefore(docs, r, k1, k2)
        {
          assert FirstSeenBefore(tail, r, k1, k2);
          FirstPosShift(docs, r[k1].id);
          FirstPosShift(docs, r[k2].id);
        }
      } else {
        var rest := Dedup(tail, seen + {d.id});
        var r := [d] + rest;
        DedupKeepsFirstSeenOrder(tail, seen + {d.id});
        forall k1, k2 | 0 <= k1 < k2 < |r|
          ensures FirstSeenBefore(docs, r, k1, k2)
        {
          assert r[k2] == rest[k2 - 1];
          FirstPosShift(docs, r[k2].id);
          if k1 > 0 {
            assert r[k1] == rest[k1 - 1];
            assert FirstSeenBefore(tail, rest, k1 - 1, k2 - 1);
            FirstPosShift(docs, r[k1].id);
          }
        }
      }
    }
  }

  /** Deduplicating a concatenation is deduplicating the front and then the
      back with the front's ids counted as seen. */
  lemma {:induction false} DedupAppend(a: seq<Doc>, b: seq<Doc>, seen: set<string>)
    ensures Dedup(a + b, seen) == Dedup(a, seen) + Dedup(b, seen + IdSet(a))
    decreases |a|
  {
    if a == [] {
      assert a + b == b;
      assert seen + IdSet(a) == seen;
    } else {
      DedupCons(a, seen);
      DedupConsAppend(a, b, seen);
      SeenIdsCons(a, seen);
      if a[0].id in seen {
        DedupAppend(a[1..], b, seen);
        assert seen + {a[0].id} == seen;
      } else {
        var seen' := seen + {a[0].id};
        DedupAppend(a[1..], b, seen');
        Assoc([a[0]], Dedup(a[1..], seen'), Dedup(b, seen + IdSet(a)));
      }
    }
  }

  /** Counting the first document's id as seen first, then the rest's. */
  lemma SeenIdsCons(a: seq<Doc>, seen: set<string>)
    requires a != []
    ensures seen + IdSet(a) == seen + {a[0].id} + IdSet(a[1..])
  {
    IdSetCons(a);
  }

  /** One step of the walk. */
  lemma DedupCons(docs: seq<Doc>, seen: set<string>)
    requires docs != []
    ensures Dedup(docs, seen) ==
            if docs[0].id in seen then Dedup(docs[1..], seen)
            else [docs[0]] + Dedup(docs[1..], seen + {docs[0].id})
  {
  }

  /** One step of the walk over a concatenation with a non-empty front. */
  lemma DedupConsAppend(a: seq<Doc>, b: seq<Doc>, seen: set<string>)
    requires a != []
    ensures Dedup(a + b, seen) ==
            if a[0].id in seen then Dedup(a[1..] + b, seen)
            else [a[0]] + Dedup(a[1..] + b, seen + {a[0].id})
  {
    assert (a + b)[0] == a[0] && (a + b)[1..] == a[1..] + b;
    DedupCons(a + b, seen);
  }

  lemma Assoc(x: seq<Doc>, y: seq<Doc>, z: seq<Doc>)
    ensures x + (y + z) == (x + y) + z
  {
  }

  /** The one-document step of the listing loop: the document is appended
      exactly when its id is neither among the ids seen before nor among
      those of the documents already walked. */
  lemma DedupSnoc(a: seq<Doc>, doc: Doc, seen: set<string>)
    ensures Dedup(a + [doc], seen) ==
            if doc.id in seen + IdSet(a) then Dedup(a, seen) else Dedup(a, seen) + [doc]
  {
    DedupAppend(a, [doc], seen);
    assert [doc][1..] == [];
  }

  lemma {:induction false} ConcatAppend(a: seq<seq<Doc>>, b: seq<seq<Doc>>)
    ensures Concat(a + b) == Concat(a) + Concat(b)
    decreases |a|
  {
    if a == [] {
      assert a + b == b;
    } else {
      assert (a + b)[1..] == a[1..] + b;
      ConcatAppend(a[1..], b);
    }
  }

  /** The `snapshot.forEach` body over one page: a document is pushed, and its
      id remembered, only when the id has not been seen. */
  method AddPage(tickets: seq<Doc>, seenIds: set<string>, docs: seq<Doc>)
    returns (tickets': seq<Doc>, seenIds': set<string>)
    ensures tickets' == tickets + Dedup(docs, seenIds)
    ensures seenIds' == seenIds + IdSet(docs)
  {
    tickets', seenIds' := tickets, seenIds;
    var j := 0;
    while j < |docs|
      invariant 0 <= j <= |docs|
      invariant Walked(tickets, seenIds, docs, j, tickets', seenIds')
    {
      var doc := docs[j];
      var t, s := tickets', seenIds';
      if doc.id !in seenIds' {
        tickets' := tickets' + [doc];
      }
      seenIds' := seenIds' + {doc.id};
      SeenStep(tickets, seenIds, docs, j, t, s, tickets', seenIds');
      j := j + 1;
    }
    WalkedAll(tickets, seenIds, docs, tickets', seenIds');
  }

  /** After `j` documents of `docs`, the result and the seen-id set are the
      input's extended by the dedup of those documents. */
  ghost predicate Walked(tickets: seq<Doc>, seenIds: set<string>, docs: seq<Doc>, j: nat,
                         t: seq<Doc>, s: set<string>)
    requires j <= |docs|
  {
    t == tickets + Dedup(docs[..j], seenIds) && s == seenIds + IdSet(docs[..j])
  }

  /** One step of the inner loop, on the functional side. */
  lemma SeenStep(tickets: seq<Doc>, seenIds: set<string>, docs: seq<Doc>, j: nat,
                 t: seq<Doc>, s: set<string>, t': seq<Doc>, s': set<string>)
    requires j < |docs| && Walked(tickets, seenIds, docs, j, t, s)
    requires t' == (if docs[j].id in s then t else t + [docs[j]])
    requires s' == s + {docs[j].id}
    ensures Walked(tickets, seenIds, docs, j + 1, t', s')
  {
    DedupPrefixStep(docs, j, seenIds);
    IdSetPrefixStep(docs, j);
    if docs[j].id !in s {
      assert t' == tickets + (Dedup(docs[..j], seenIds) + [docs[j]]);
    }
  }

  /** Extending the walked prefix by one document. */
  lemma DedupPrefixStep(docs: seq<Doc>, j: nat, seen: set<string>)
    requires j < |docs|
    ensures Dedup(docs[..j + 1], seen) ==
            if docs[j].id in seen + IdSet(docs[..j]) then Dedup(docs[..j], seen)
            else Dedup(docs[..j], seen) + [docs[j]]
  {
    assert docs[..j + 1] == docs[..j] + [docs[j]];
    DedupSnoc(docs[..j], docs[j], seen);
  }

  lemma IdSetPrefixStep(docs: seq<Doc>, j: nat)
    requires j < |docs|
    ensures IdSet(docs[..j + 1]) == IdSet(docs[..j]) + {docs[j].id}
  {
    assert docs[..j + 1] == docs[..j] + [docs[j]];
    IdSetAppend(docs[..j], [docs[j]]);
    assert IdSet([docs[j]]) == {docs[j].id};
  }

  lemma WalkedAll(tickets: seq<Doc>, seenIds: set<string>, docs: seq<Doc>, t: seq<Doc>, s: set<string>)
    requires Walked(tickets, seenIds, docs, |docs|, t, s)
    ensures t == tickets + Dedup(docs, seenIds) && s == seenIds + IdSet(docs)
  {
    assert docs[..|docs|] == docs;
  }
}
