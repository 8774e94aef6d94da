/** How BCS orders map entries: a stable sort by the bytes of the keys, then of each run of equal
    keys the first entry is kept. */
module KeyOrder {
  import opened Uleb128

  /** Lexicographic order of byte strings, a proper prefix being smaller. */
  predicate Less(a: seq<Byte>, b: seq<Byte>) {
    b != [] && (a == [] || a[0] < b[0] || (a[0] == b[0] && Less(a[1..], b[1..])))
  }

  lemma {:induction false} LessTransitive(a: seq<Byte>, b: seq<Byte>, c: seq<Byte>)
    requires Less(a, b) && Less(b, c)
    ensures Less(a, c)
  {
    if a != [] && a[0] == b[0] == c[0] { LessTransitive(a[1..], b[1..], c[1..]); }
  }

  lemma {:induction false} LessTotal(a: seq<Byte>, b: seq<Byte>)
    ensures a == b || Less(a, b) || Less(b, a)
    ensures !(Less(a, b) && Less(b, a))
    ensures !Less(a, a)
  {
    if a != [] && b != [] {
      LessTotal(a[1..], b[1..]);
      assert a[0] == b[0] && a[1..] == b[1..] ==> a == [a[0]] + a[1..] == [b[0]] + b[1..] == b;
    }
    if a != [] { LessTotal(a[1..], a[1..]); }
  }

  datatype Entry<T> = Entry(key: seq<Byte>, payload: T)

  predicate StrictlySorted<T>(es: seq<Entry<T>>) {
    forall i, j :: 0 <= i < j < |es| ==> Less(es[i].key, es[j].key)
  }

  predicate HasKey<T>(es: seq<Entry<T>>, key: seq<Byte>) {
    es != [] && (es[|es| - 1].key == key || HasKey(es[..|es| - 1], key))
  }

  predicate DistinctKeys<T>(es: seq<Entry<T>>) {
    es == [] || (!HasKey(es[..|es| - 1], es[|es| - 1].key) && DistinctKeys(es[..|es| - 1]))
  }

  /** Inserts after every entry whose key is not greater. */
  function Insert<T>(es: seq<Entry<T>>, e: Entry<T>): seq<Entry<T>> {
    var n := |es|;
    if n == 0 || !Less(e.key, es[n - 1].key) then es + [e]
    else Insert(es[..n - 1], e) + [es[n - 1]]
  }

  /** `sort_by` on the keys, which is stable. */
  function SortByKey<T>(es: seq<Entry<T>>): seq<Entry<T>> {
    if es == [] then [] else Insert(SortByKey(es[..|es| - 1]), es[|es| - 1])
  }

  /** Retains an entry unless the last retained one has its key. */
  function Retain<T>(kept: seq<Entry<T>>, e: Entry<T>): seq<Entry<T>> {
    if kept != [] && kept[|kept| - 1].key == e.key then kept else kept + [e]
  }

  /** `dedup_by` on the keys */
  function DedupByKey<T>(es: seq<Entry<T>>): seq<Entry<T>> {
    if es == [] then [] else Retain(DedupByKey(es[..|es| - 1]), es[|es| - 1])
  }

  function Canon<T>(es: seq<Entry<T>>): seq<Entry<T>> {
    DedupByKey(SortByKey(es))
  }

  /** Sorting and removing duplicates, one entry at a time. */
  function InsertNew<T>(es: seq<Entry<T>>, e: Entry<T>): seq<Entry<T>> {
    var n := |es|;
    if n == 0 then [e]
    else if e.key == es[n - 1].key then es
    else if Less(e.key, es[n - 1].key) then InsertNew(es[..n - 1], e) + [es[n - 1]]
    else es + [e]
  }

  lemma DedupLast<T>(es: seq<Entry<T>>, e: Entry<T>)
    ensures DedupByKey(es + [e]) == Retain(DedupByKey(es), e)
  {
    assert (es + [e])[..|es|] == es;
  }

  lemma RetainInsertNew<T>(kept: seq<Entry<T>>, last: Entry<T>, e: Entry<T>)
    ensures if Less(e.key, last.key)
            then InsertNew(Retain(kept, last), e) == Retain(InsertNew(kept, e), last)
            else InsertNew(Retain(kept, last), e) == Retain(Retain(kept, last), e)
  {
    LessTotal(e.key, last.key);
    assert (kept + [last])[..|kept|] == kept;
  }

  lemma {:induction false} DedupInsert<T>(es: seq<Entry<T>>, e: Entry<T>)
    ensures DedupByKey(Insert(es, e)) == InsertNew(DedupByKey(es), e)
  {
    if es == [] {
      DedupLast(es, e);
    } else {
      var init, last := es[..|es| - 1], es[|es| - 1];
      RetainInsertNew(DedupByKey(init), last, e);
      if Less(e.key, last.key) {
        DedupInsert(init, e);
        DedupLast(Insert(init, e), last);
      } else {
        DedupLast(es, e);
      }
    }
  }

  lemma CanonStep<T>(es: seq<Entry<T>>)
    requires es != []
    ensures Canon(es) == InsertNew(Canon(es[..|es| - 1]), es[|es| - 1])
  {
    DedupInsert(SortByKey(es[..|es| - 1]), es[|es| - 1]);
  }

  lemma InLast<T>(es: seq<Entry<T>>, e: Entry<T>, x: Entry<T>)
    ensures x in es + [e] <==> x in es || x == e
  {}

  predicate Below<T>(es: seq<Entry<T>>, key: seq<Byte>) {
    forall i :: 0 <= i < |es| ==> Less(es[i].key, key)
  }

  lemma {:induction false} BelowHasNot<T>(es: seq<Entry<T>>, key: seq<Byte>)
    requires Below(es, key)
    ensures !HasKey(es, key)
  {
    if es != [] {
      BelowHasNot(es[..|es| - 1], key);
      LessTotal(es[|es| - 1].key, key);
    }
  }

  lemma LastIsGreatest<T>(es: seq<Entry<T>>, key: seq<Byte>)
    requires StrictlySorted(es) && es != [] && Less(es[|es| - 1].key, key)
    ensures Below(es, key)
  {
    forall i | 0 <= i < |es| ensures Less(es[i].key, key) {
      if i < |es| - 1 { LessTransitive(es[i].key, es[|es| - 1].key, key); }
    }
  }

  lemma {:induction false} InsertNewBelow<T>(es: seq<Entry<T>>, e: Entry<T>, key: seq<Byte>)
    requires Below(es, key) && Less(e.key, key)
    ensures Below(InsertNew(es, e), key)
  {
    if es != [] { InsertNewBelow(es[..|es| - 1], e, key); }
  }

  lemma {:induction false} InsertNewKeepsOrder<T>(es: seq<Entry<T>>, e: Entry<T>)
    requires StrictlySorted(es)
    ensures StrictlySorted(InsertNew(es, e))
  {
    var n := |es|;
    if n > 0 {
      LessTotal(e.key, es[n - 1].key);
      if Less(e.key, es[n - 1].key) {
        InsertNewKeepsOrder(es[..n - 1], e);
        InsertNewBelow(es[..n - 1], e, es[n - 1].key);
      } else if e.key != es[n - 1].key {
        LastIsGreatest(es, e.key);
      }
    }
  }

  lemma HasKeySnoc<T>(es: seq<Entry<T>>, e: Entry<T>, key: seq<Byte>)
    ensures HasKey(es + [e], key) <==> HasKey(es, key) || e.key == key
  {
    assert (es + [e])[..|es|] == es;
  }

  lemma {:induction false} InsertNewKeys<T>(es: seq<Entry<T>>, e: Entry<T>, key: seq<Byte>)
    ensures HasKey(InsertNew(es, e), key) <==> HasKey(es, key) || key == e.key
  {
    var n := |es|;
    if n == 0 {
      OneKey(e, key);
    } else if e.key == es[n - 1].key {
    } else if Less(e.key, es[n - 1].key) {
      InsertNewKeys(es[..n - 1], e, key);
      HasKeySnoc(InsertNew(es[..n - 1], e), es[n - 1], key);
    } else {
      HasKeySnoc(es, e, key);
    }
  }

  lemma OneKey<T>(e: Entry<T>, key: seq<Byte>)
    ensures HasKey([e], key) <==> key == e.key
  {
    assert [e][..0] == [];
  }

  lemma {:induction false} InsertNewIn<T>(es: seq<Entry<T>>, e: Entry<T>, x: Entry<T>)
    requires StrictlySorted(es)
    ensures x in InsertNew(es, e) <==> x in es || (x == e && !HasKey(es, e.key))
  {
    var n := |es|;
    if n > 0 {
      var init, last := es[..n - 1], es[n - 1];
      LessTotal(e.key, last.key);
      if Less(e.key, last.key) {
        InsertNewIn(init, e, x);
        InLast(init, last, x);
        InLast(InsertNew(init, e), last, x);
        assert es == init + [last];
      } else if e.key != last.key {
        LastIsGreatest(es, e.key);
        BelowHasNot(es, e.key);
        InLast(es, e, x);
      }
    }
  }

  /** `e` is in `es` and no entry before it has its key. */
  ghost predicate FirstOfItsKey<T>(es: seq<Entry<T>>, e: Entry<T>) {
    && es != []
    && var init := es[..|es| - 1];
       FirstOfItsKey(init, e) || (e == es[|es| - 1] && !HasKey(init, e.key))
  }

  lemma {:induction false} CanonKeys<T>(es: seq<Entry<T>>, key: seq<Byte>)
    ensures HasKey(Canon(es), key) <==> HasKey(es, key)
  {
    if es != [] {
      CanonStep(es);
      CanonKeys(es[..|es| - 1], key);
      InsertNewKeys(Canon(es[..|es| - 1]), es[|es| - 1], key);
    }
  }

  lemma {:induction false} CanonSorted<T>(es: seq<Entry<T>>)
    ensures StrictlySorted(Canon(es))
  {
    if es != [] {
      CanonStep(es);
      CanonSorted(es[..|es| - 1]);
      InsertNewKeepsOrder(Canon(es[..|es| - 1]), es[|es| - 1]);
    }
  }

  lemma {:induction false} CanonIn<T>(es: seq<Entry<T>>, e: Entry<T>)
    ensures e in Canon(es) <==> FirstOfItsKey(es, e)
  {
    if es != [] {
      var init, last := es[..|es| - 1], es[|es| - 1];
      CanonStep(es);
      CanonSorted(init);
      CanonIn(init, e);
      CanonKeys(init, last.key);
      InsertNewIn(Canon(init), last, e);
    }
  }

  /** What is written for a map: strictly sorted by key, and for each key the entry added first. */
  lemma CanonMeaning<T>(es: seq<Entry<T>>)
    ensures StrictlySorted(Canon(es))
    ensures forall e :: e in Canon(es) <==> FirstOfItsKey(es, e)
    ensures forall key :: HasKey(Canon(es), key) <==> HasKey(es, key)
  {
    CanonSorted(es);
    forall e ensures e in Canon(es) <==> FirstOfItsKey(es, e) { CanonIn(es, e); }
    forall key ensures HasKey(Canon(es), key) <==> HasKey(es, key) { CanonKeys(es, key); }
  }

  lemma SortedInit<T>(es: seq<Entry<T>>)
    requires StrictlySorted(es) && es != []
    ensures StrictlySorted(es[..|es| - 1]) && Below(es[..|es| - 1], es[|es| - 1].key)
    ensures es == es[..|es| - 1] + [es[|es| - 1]]
  {}

  lemma {:induction false} CanonOfSorted<T>(es: seq<Entry<T>>)
    requires StrictlySorted(es)
    ensures Canon(es) == es
  {
    if es != [] {
      SortedInit(es);
      CanonOfSorted(es[..|es| - 1]);
      CanonStep(es);
      InsertNewAtEnd(es[..|es| - 1], es[|es| - 1]);
    }
  }

  lemma InsertNewAtEnd<T>(es: seq<Entry<T>>, e: Entry<T>)
    requires Below(es, e.key)
    ensures InsertNew(es, e) == es + [e]
  {
    if es != [] { LessTotal(es[|es| - 1].key, e.key); }
  }

  /** Two strictly sorted lists with the same entries are the same list. */
  lemma {:induction false} SortedAreEqual<T>(es: seq<Entry<T>>, fs: seq<Entry<T>>)
    requires StrictlySorted(es) && StrictlySorted(fs)
    requires forall e :: e in es <==> e in fs
    ensures es == fs
  {
    if es != [] && fs != [] {
      var m, n := |es| - 1, |fs| - 1;
      assert es[m] in fs && fs[n] in es;
      InSorted(es, fs[n]);
      InSorted(fs, es[m]);
      LessTotal(es[m].key, fs[n].key);
      assert es[m] == fs[n];
      forall e ensures e in es[..m] <==> e in fs[..n] {
        WithoutLast(es, e);
        WithoutLast(fs, e);
      }
      SortedAreEqual(es[..m], fs[..n]);
      assert es == es[..m] + [es[m]] && fs == fs[..n] + [fs[n]];
    } else {
      HeadIn(es);
      HeadIn(fs);
    }
  }

  lemma HeadIn<T>(es: seq<Entry<T>>)
    ensures es != [] ==> exists e :: e in es
  {
    if es != [] { assert es[0] in es; }
  }

  lemma InSorted<T>(es: seq<Entry<T>>, e: Entry<T>)
    requires StrictlySorted(es) && e in es
    ensures e == es[|es| - 1] || Less(e.key, es[|es| - 1].key)
  {
    var i :| 0 <= i < |es| && es[i] == e;
  }

  lemma WithoutLast<T>(es: seq<Entry<T>>, e: Entry<T>)
    requires StrictlySorted(es) && es != []
    ensures e in es[..|es| - 1] <==> e in es && e != es[|es| - 1]
  {
    var n := |es| - 1;
    assert es == es[..n] + [es[n]];
    InLast(es[..n], es[n], e);
    if es[n] in es[..n] {
      var i :| 0 <= i < n && es[..n][i] == es[n];
      assert Less(es[i].key, es[n].key);
      LessTotal(es[n].key, es[n].key);
    }
  }

  lemma {:induction false} FirstWhenDistinct<T>(es: seq<Entry<T>>, e: Entry<T>)
    requires DistinctKeys(es)
    ensures FirstOfItsKey(es, e) <==> e in es
  {
    if es != [] {
      var init := es[..|es| - 1];
      FirstWhenDistinct(init, e);
      assert es == init + [es[|es| - 1]];
      InLast(init, es[|es| - 1], e);
    }
  }

  /** With distinct keys the order in which entries were added does not matter. */
  lemma CanonIgnoresOrder<T>(es: seq<Entry<T>>, fs: seq<Entry<T>>)
    requires DistinctKeys(es) && DistinctKeys(fs)
    requires forall e :: e in es <==> e in fs
    ensures Canon(es) == Canon(fs)
  {
    CanonMeaning(es);
    CanonMeaning(fs);
    forall e ensures e in Canon(es) <==> e in Canon(fs) {
      FirstWhenDistinct(es, e);
      FirstWhenDistinct(fs, e);
    }
    SortedAreEqual(Canon(es), Canon(fs));
  }

  /** Whatever the entries carry, the keys alone decide which are kept and where. */
  function Carry<T, U>(es: seq<Entry<T>>, f: T -> U): (r: seq<Entry<U>>)
    ensures |r| == |es| && forall i :: 0 <= i < |es| ==> r[i] == Entry(es[i].key, f(es[i].payload))
  {
    if es == [] then []
    else Carry(es[..|es| - 1], f) + [Entry(es[|es| - 1].key, f(es[|es| - 1].payload))]
  }

  lemma {:induction false} CarryInsertNew<T, U>(es: seq<Entry<T>>, e: Entry<T>, f: T -> U)
    ensures Carry(InsertNew(es, e), f) == InsertNew(Carry(es, f), Entry(e.key, f(e.payload)))
  {
    var n := |es|;
    if n > 0 && e.key != es[n - 1].key && Less(e.key, es[n - 1].key) {
      CarryInsertNew(es[..n - 1], e, f);
      assert Carry(es, f)[..n - 1] == Carry(es[..n - 1], f);
    }
  }

  lemma {:induction false} CarryCanon<T, U>(es: seq<Entry<T>>, f: T -> U)
    ensures Carry(Canon(es), f) == Canon(Carry(es, f))
  {
    if es != [] {
      var n := |es| - 1;
      CarryCanon(es[..n], f);
      CanonStep(es);
      CanonStep(Carry(es, f));
      assert Carry(es, f)[..n] == Carry(es[..n], f);
      CarryInsertNew(Canon(es[..n]), es[n], f);
    }
  }
}
