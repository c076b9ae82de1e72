/** How much room an error tree takes, and that the encoder accepts a tree exactly if it fits and is not too deep. */
module ErrorSize {
  import opened Wire
  import opened Codec
  import opened Schema
  import opened SchemaProof
  import opened SchemaSize
  import opened ErrorTree
  import opened ErrorProof

  /** A nil takes one byte; a node 21 bytes, the fields of a typed error, and its causes. */
  function ErrorBulk(err: Err): nat
    requires Valid(err)
    decreases Rank(err), 1, 0
  {
    RankOfCauses(err);
    ValidCauses(err);
    KindTyped(err);
    21 + Bulk(KindLayout(Kind(err)), KindValue(err)) + CausesBulk(CauseList(err))
  }

  function CausesBulk(causes: seq<Ref>): nat
    requires ValidAll(causes)
    decreases MaxRank(causes), 0, |causes|
  {
    if causes == [] then 0
    else
      RankOfHead(causes);
      (if causes[0].To? then ErrorBulk(causes[0].err) else 1) + CausesBulk(causes[1..])
  }

  /** The texts of the fields, then those of the causes, then the node's own. */
  function ErrorBlocks(err: Err, render: Err -> Bytes): seq<Bytes>
    requires Valid(err)
    decreases Rank(err), 1, 0
  {
    RankOfCauses(err);
    ValidCauses(err);
    KindTyped(err);
    BlocksOf(KindLayout(Kind(err)), KindValue(err)) + CausesBlocks(CauseList(err), render) +
    TextBlocks(Text(err, render))
  }

  function CausesBlocks(causes: seq<Ref>, render: Err -> Bytes): seq<Bytes>
    requires ValidAll(causes)
    decreases MaxRank(causes), 0, |causes|
  {
    if causes == [] then []
    else
      RankOfHead(causes);
      (if causes[0].To? then ErrorBlocks(causes[0].err, render) else []) + CausesBlocks(causes[1..], render)
  }

  function RefBulk(o: Ref): nat
    requires o.To? ==> Valid(o.err)
  {
    if o.To? then ErrorBulk(o.err) else 1
  }

  function RefBlocks(o: Ref, render: Err -> Bytes): seq<Bytes>
    requires o.To? ==> Valid(o.err)
  {
    if o.To? then ErrorBlocks(o.err, render) else []
  }

  /** The fields of typed errors are texts, numbers and times, which no input limit concerns. */
  lemma KindWithin(err: Err, limit: int)
    requires Valid(err)
    ensures Typed(KindLayout(Kind(err)), KindValue(err)) && Within(KindLayout(Kind(err)), KindValue(err), limit)
  {
    KindTyped(err);
    var s, v := KindLayout(Kind(err)), KindValue(err);
    match err
    case Kalkan(_, _) => assert Within(s.rest, v.rest, limit);
    case Limit(_, _, _) => assert Within(s.rest.rest, v.rest.rest, limit) && Within(s.rest, v.rest, limit);
    case Revoked(_, _) => assert Within(s.rest, v.rest, limit);
    case _ =>
  }

  lemma KindTakes(e: Enc, err: Err)
    requires Valid(err) && Usable(e)
    ensures Typed(KindLayout(Kind(err)), KindValue(err))
    ensures var s, v := KindLayout(Kind(err)), KindValue(err);
      Takes(e, EncodeKind(e, err), 4 + Bulk(s, v), BlocksOf(s, v), true)
  {
    KindTyped(err);
    KindWithin(err, e.limit);
    var s, v := KindLayout(Kind(err)), KindValue(err);
    var f := Put(e, U32(Kind(err)));
    PutTakes(e, U32(Kind(err)));
    if f.err.Some? { Sticky(f, s, v); } else { EncodeTakes(f, s, v); }
    TakesTwice(e, f, EncodeKind(e, err), 4, [], true, Bulk(s, v), BlocksOf(s, v), true);
    assert [] + BlocksOf(s, v) == BlocksOf(s, v);
  }

  lemma {:induction false} CausesAtLeast(causes: seq<Ref>)
    requires ValidAll(causes)
    ensures CausesBulk(causes) >= |causes|
  {
    if causes != [] { CausesAtLeast(causes[1..]); }
  }

  /** A present error is accepted exactly if it fits and its deepest node lies above the depth limit. */
  lemma {:induction false} ErrorTakes(e: Enc, o: Ref, depth: nat, render: Err -> Bytes)
    requires Usable(e) && depth <= MAX_DEPTH && (o.To? ==> Valid(o.err))
    ensures Takes(e, EncodeError(e, o, depth, render), RefBulk(o), RefBlocks(o, render),
                  depth + RefRank(o) <= MAX_DEPTH)
    decreases MAX_DEPTH - depth, 3, 0
  {
    var e0 := PutBool(e, o.To?);
    PutTakes(e, [if o.To? then 1 else 0]);
    if o.To? && e0.err.None? && depth < MAX_DEPTH {
      NodeTakes(e0, o.err, depth, render);
      NodeAfterFlag(e, e0, o.err, depth, render);
    }
  }

  /** The states behind the flag of a present error. */
  lemma {:induction false} NodeTakes(e: Enc, err: Err, depth: nat, render: Err -> Bytes)
    requires Usable(e) && depth < MAX_DEPTH && Valid(err)
    ensures Takes(e, EncodeNode(e, err, depth, render), ErrorBulk(err) - 1, ErrorBlocks(err, render),
                  depth + Rank(err) < MAX_DEPTH)
    decreases MAX_DEPTH - depth, 2, 0
  {
    ValidCauses(err);
    RankOfCauses(err);
    var s, v, causes := KindLayout(Kind(err)), KindValue(err), CauseList(err);
    var e1 := EncodeKind(e, err);
    var e3 := EncodeCausesOf(e1, Causes(err), depth, render);
    KindTakes(e, err);
    if e1.err.None? {
      CausesOfTake(e1, Causes(err), depth, render);
    } else {
      CausesOfSticky(e1, Causes(err), depth, render);
    }
    var ok := depth + Rank(err) < MAX_DEPTH;
    TakesTwice(e, e1, e3, 4 + Bulk(s, v), BlocksOf(s, v), true,
               4 + CausesBulk(causes), CausesBlocks(causes, render), ok);
    var x := BlocksOf(s, v) + CausesBlocks(causes, render);
    ThenPut(e, e3, U64(Bits(err, 0)), 8 + Bulk(s, v) + CausesBulk(causes), x, ok);
    ThenText(e, Put(e3, U64(Bits(err, 0))), Text(err, render), 16 + Bulk(s, v) + CausesBulk(causes), x, ok);
  }

  /** What EncodeError does behind the flag. */
  ghost function EncodeNode(e: Enc, err: Err, depth: nat, render: Err -> Bytes): Enc
    requires depth < MAX_DEPTH && Valid(err)
  {
    ValidCauses(err);
    PutText(Put(EncodeCausesOf(EncodeKind(e, err), Causes(err), depth, render), U64(Bits(err, 0))), Text(err, render))
  }

  lemma NodeAfterFlag(e: Enc, e0: Enc, err: Err, depth: nat, render: Err -> Bytes)
    requires Usable(e) && depth < MAX_DEPTH && Valid(err) && e0 == PutBool(e, true) && e0.err.None?
    requires Takes(e0, EncodeNode(e0, err, depth, render), ErrorBulk(err) - 1, ErrorBlocks(err, render),
                   depth + Rank(err) < MAX_DEPTH)
    ensures Takes(e, EncodeError(e, To(err), depth, render), ErrorBulk(err), ErrorBlocks(err, render),
                  depth + Rank(err) + 1 <= MAX_DEPTH)
  {
    PutTakes(e, [1]);
    var node := EncodeNode(e0, err, depth, render);
    TakesTwice(e, e0, node, 1, [], true, ErrorBulk(err) - 1, ErrorBlocks(err, render), depth + Rank(err) < MAX_DEPTH);
    assert [] + ErrorBlocks(err, render) == ErrorBlocks(err, render);
    SameRefusal(e0, err, depth, render);
  }

  /** EncodeError stops early where its steps would only carry the error on. */
  lemma SameRefusal(e0: Enc, err: Err, depth: nat, render: Err -> Bytes)
    requires depth < MAX_DEPTH && Valid(err) && e0.err.None?
    ensures ValidAll(Listed(Causes(err)))
    ensures var e3 := EncodeCausesOf(EncodeKind(e0, err), Causes(err), depth, render);
      e3.err.Some? ==> EncodeNode(e0, err, depth, render).err.Some?
  {
    ValidCauses(err);
  }

  lemma CausesOfSticky(e: Enc, causes: Option<seq<Ref>>, depth: nat, render: Err -> Bytes)
    requires depth < MAX_DEPTH && ValidAll(Listed(causes)) && e.err.Some?
    ensures EncodeCausesOf(e, causes, depth, render).err.Some?
  {
  }

  lemma {:induction false} CausesOfTake(e: Enc, causes: Option<seq<Ref>>, depth: nat, render: Err -> Bytes)
    requires Usable(e) && depth < MAX_DEPTH && ValidAll(Listed(causes))
    ensures var list := Listed(causes);
      Takes(e, EncodeCausesOf(e, causes, depth, render), 4 + CausesBulk(list), CausesBlocks(list, render),
            depth + MaxRank(list) < MAX_DEPTH)
    decreases MAX_DEPTH - depth, 1, 0
  {
    var list := Listed(causes);
    if causes.None? {
      PutTakes(e, U32(0));
    } else {
      CausesAtLeast(list);
      if |list| <= MAX_METADATA_SIZE {
        var f := PutLength(e, |list|, true);
        PutTakes(e, U32(|list| + 1));
        if f.err.None? { CausesTake(f, list, depth + 1, render); }
        TakesTwice(e, f, EncodeCausesOf(e, causes, depth, render), 4, [], true, CausesBulk(list),
                   CausesBlocks(list, render), depth + 1 + MaxRank(list) <= MAX_DEPTH);
        assert [] + CausesBlocks(list, render) == CausesBlocks(list, render);
      }
    }
  }

  lemma {:induction false} CausesTake(e: Enc, causes: seq<Ref>, depth: nat, render: Err -> Bytes)
    requires Usable(e) && depth <= MAX_DEPTH && ValidAll(causes)
    ensures Takes(e, EncodeCauses(e, causes, depth, render), CausesBulk(causes), CausesBlocks(causes, render),
                  depth + MaxRank(causes) <= MAX_DEPTH)
    decreases MAX_DEPTH - depth, 4, |causes|
  {
    if causes == [] {
      assert e.blocks + [] == e.blocks;
    } else {
      var f := EncodeError(e, causes[0], depth, render);
      ErrorTakes(e, causes[0], depth, render);
      if f.err.Some? {
        CausesSticky(f, causes[1..], depth, render);
      } else {
        CausesTake(f, causes[1..], depth, render);
      }
      TakesTwice(e, f, EncodeCauses(e, causes, depth, render), RefBulk(causes[0]), RefBlocks(causes[0], render),
                 depth + RefRank(causes[0]) <= MAX_DEPTH, CausesBulk(causes[1..]), CausesBlocks(causes[1..], render),
                 depth + MaxRank(causes[1..]) <= MAX_DEPTH);
    }
  }
}
