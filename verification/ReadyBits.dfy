/** The ready bitmaps of scheduler.c, in one level for up to 32 priorities and in two levels for up to 256. */
module ReadyBits {
  import opened Bitmaps

  type Lists = map<Level, seq<int>>

  type Table = map<Level, Word>

  ghost predicate Marked(lists: Lists, p: Level) { p in lists && lists[p] != [] }

  predicate In32(p: Level) { p.w < 32 }

  predicate In256(p: Level) { p.w < 256 }

  /** rt_thread_ready_priority_group has a bit for every non-empty list. */
  ghost predicate OneLevel(group: Word, lists: Lists) {
    forall p: Level :: In32(p) ==> (Has(group, p.w) <==> Marked(lists, p))
  }

  lemma OneInsert(group: Word, lists: Lists, p: Level, l: seq<int>)
    requires OneLevel(group, lists) && In32(p) && l != []
    ensures OneLevel(With(group, p.w), lists[p := l])
  {
    hide Has, With;
    forall q: Level | In32(q)
      ensures Has(With(group, p.w), q.w) <==> Marked(lists[p := l], q)
    {
      SameLevel(p, q);
      WithHas(group, p.w, q.w);
    }
  }

  lemma SameLevel(p: Level, q: Level)
    ensures p == q <==> p.w == q.w
  {}

  lemma OneRemove(group: Word, lists: Lists, p: Level)
    requires OneLevel(group, lists) && In32(p)
    ensures OneLevel(Less(group, p.w), lists[p := []])
  {
    hide Has, Less;
    forall q: Level | In32(q)
      ensures Has(Less(group, p.w), q.w) <==> Marked(lists[p := []], q)
    {
      SameLevel(p, q);
      WithHas(group, p.w, q.w);
    }
  }

  /** A list that changes without becoming empty. */
  lemma OneSame(group: Word, lists: Lists, p: Level, l: seq<int>)
    requires OneLevel(group, lists) && Marked(lists, p) && l != []
    ensures OneLevel(group, lists[p := l])
  {
    hide Has;
    assert forall q: Level :: Marked(lists[p := l], q) <==> Marked(lists, q);
  }

  /** __rt_ffs(group) - 1. */
  function First(group: Word): Level { Level(Ffs(group) - 1) }

  /** The search of rt_schedule finds the smallest priority with a ready thread. */
  lemma OneFind(group: Word, lists: Lists, p: Level)
    requires OneLevel(group, lists) && In32(p) && Marked(lists, p)
    ensures In32(First(group)) && Marked(lists, First(group)) && !Below(p, First(group))
  {
    hide Has, Ffs;
    NonZero(group, p.w);
    FfsIsLeast(group, p.w);
    assert In32(Level(Ffs(group) - 1));
  }

  lemma NonZero(w: Word, p: Word)
    requires p < 32 && Has(w, p)
    ensures w != 0
  {
    if w == 0 { EmptyWord(p); }
  }

  // ---- two levels ----

  function Row(p: Level): Level { Level(Number(p.w)) }

  function Col(p: Level): Level { Level(Low(p.w)) }

  lemma RowCol(p: Level)
    requires In256(p)
    ensures In32(Row(p)) && In32(Col(p)) && Low8(Col(p))
    ensures forall q: Level :: In256(q) && Row(q) == Row(p) && Col(q) == Col(p) ==> q == p
  {
    forall q: Level | In256(q) && Row(q) == Row(p) && Col(q) == Col(p)
      ensures q == p
    {
      Parts(p.w);
      Parts(q.w);
    }
    Parts(p.w);
  }

  predicate Low8(c: Level) { c.w < 8 }

  predicate Byte(w: Word) { w < 256 }

  lemma ByteBits(w: Word, c: Word)
    requires Byte(w) && c < 8
    ensures Byte(w | (1 << (c as bv6))) && Byte(w & !(1 << (c as bv6)))
  {}

  /** The summary word has a bit for every row that is not zero, and a row one for every non-empty list. */
  ghost predicate TwoLevel(group: Word, table: Table, lists: Lists) {
    && (forall n: Level :: In32(n) ==> n in table && Byte(table[n]) && (Has(group, n.w) <==> table[n] != 0))
    && (forall p: Level :: In256(p) && In32(Row(p)) && In32(Col(p)) && Row(p) in table ==>
          (Has(table[Row(p)], Col(p).w) <==> Marked(lists, p)))
  }

  lemma ByteWith(w: Word, c: Level)
    requires Byte(w) && Low8(c)
    ensures In32(c) && Byte(With(w, c.w)) && Byte(Less(w, c.w))
  {
    ByteBits(w, c.w);
  }

  lemma HighBits(w: Word, c: Word)
    requires Byte(w) && 8 <= c < 32
    ensures w & (1 << (c as bv6)) == 0
  {}

  /** A byte has no elements from 8 on. */
  lemma ByteSmall(w: Word, c: Level)
    requires Byte(w) && In32(c) && Has(w, c.w)
    ensures Low8(c)
  {
    if !Low8(c) {
      HighBits(w, c.w);
      HasIsBit(w, c.w);
    }
  }

  lemma TwoInsert(group: Word, table: Table, lists: Lists, p: Level, l: seq<int>)
    requires TwoLevel(group, table, lists) && In256(p) && l != []
    ensures In32(Row(p)) && In32(Col(p)) && Row(p) in table
    ensures TwoLevel(With(group, Row(p).w), table[Row(p) := With(table[Row(p)], Col(p).w)], lists[p := l])
  {
    hide Has, With, Row, Col, Byte, In256, Low8;
    RowCol(p);
    var r, c := Row(p), Col(p);
    var table' := table[r := With(table[r], c.w)];
    ByteWith(table[r], c);
    WithNonZero(table[r], c);
    forall n: Level | In32(n)
      ensures n in table' && Byte(table'[n]) && (Has(With(group, r.w), n.w) <==> table'[n] != 0)
    {
      SameLevel(r, n);
      WithHas(group, r.w, n.w);
    }
    forall q: Level | In256(q) && In32(Row(q)) && In32(Col(q))
      ensures Has(table'[Row(q)], Col(q).w) <==> Marked(lists[p := l], q)
    {
      SameLevel(c, Col(q));
      WithHas(table[r], c.w, Col(q).w);
    }
  }

  lemma WithNonZero(w: Word, c: Level)
    requires In32(c)
    ensures With(w, c.w) != 0
  {
    hide Has, With;
    WithHas(w, c.w, c.w);
    NonZero(With(w, c.w), c.w);
  }

  /** Clearing the bit of a list that has become empty, and the bit of its row when that was the last one. */
  lemma TwoRemove(group: Word, table: Table, lists: Lists, p: Level)
    requires TwoLevel(group, table, lists) && In256(p)
    ensures In32(Row(p)) && In32(Col(p)) && Row(p) in table
    ensures var w := Less(table[Row(p)], Col(p).w);
            TwoLevel(if w == 0 then Less(group, Row(p).w) else group, table[Row(p) := w], lists[p := []])
  {
    hide Has, Less, Row, Col, Byte, In256, Low8;
    RowCol(p);
    var r, c := Row(p), Col(p);
    var w := Less(table[r], c.w);
    var table', group' := table[r := w], if w == 0 then Less(group, r.w) else group;
    ByteWith(table[r], c);
    forall n: Level | In32(n)
      ensures n in table' && Byte(table'[n]) && (Has(group', n.w) <==> table'[n] != 0)
    {
      SameLevel(r, n);
      WithHas(group, r.w, n.w);
      LessNonZero(table[r], c);
    }
    forall q: Level | In256(q) && In32(Row(q)) && In32(Col(q))
      ensures Has(table'[Row(q)], Col(q).w) <==> Marked(lists[p := []], q)
    {
      SameLevel(c, Col(q));
      WithHas(table[r], c.w, Col(q).w);
    }
  }

  lemma LessNonZero(w: Word, c: Level)
    requires In32(c)
    ensures Less(w, c.w) != 0 ==> w != 0
  {}

  lemma TwoSame(group: Word, table: Table, lists: Lists, p: Level, l: seq<int>)
    requires TwoLevel(group, table, lists) && Marked(lists, p) && l != []
    ensures TwoLevel(group, table, lists[p := l])
  {
    hide Has, Row, Col, Byte, In256;
    assert forall q: Level :: Marked(lists[p := l], q) <==> Marked(lists, q);
  }

  /** (number << 3) + __rt_ffs(...) - 1. */
  function Joined(n: Level, m: Level): Level { Level(Whole(n.w, m.w)) }

  /** The two searches of rt_schedule find the smallest priority with a ready thread. */
  lemma TwoFind(group: Word, table: Table, lists: Lists, p: Level)
    requires TwoLevel(group, table, lists) && In256(p) && Marked(lists, p)
    ensures First(group) in table
    ensures var q := Joined(First(group), First(table[First(group)])); In256(q) && Marked(lists, q) && !Below(p, q)
  {
    hide Has, Ffs, Row, Col, Byte, In256, Low8, Whole, Below, TwoLevel, Marked;
    TwoCol(group, table, lists, p);
    var r, c := Row(p), Col(p);
    TwoRow(group, table, lists, r);
    NonZero(table[r], c.w);
    NonZero(group, r.w);
    FfsIsLeast(group, r.w);
    var n := Level(Ffs(group) - 1);
    TwoRow(group, table, lists, n);
    FfsIsLeast(table[n], c.w);
    var m := Level(Ffs(table[n]) - 1);
    ByteSmall(table[n], m);
    WholeIs(n, m);
    TwoCol(group, table, lists, Level(Whole(n.w, m.w)));
    LeastParts(n, m, p);
  }

  /** What the upper level says about one row, and the lower level about one priority. */
  lemma TwoRow(group: Word, table: Table, lists: Lists, n: Level)
    requires TwoLevel(group, table, lists) && In32(n)
    ensures n in table && Byte(table[n]) && (Has(group, n.w) <==> table[n] != 0)
  {}

  lemma TwoCol(group: Word, table: Table, lists: Lists, p: Level)
    requires TwoLevel(group, table, lists) && In256(p)
    ensures In32(Row(p)) && In32(Col(p)) && Low8(Col(p)) && Row(p) in table
    ensures Has(table[Row(p)], Col(p).w) <==> Marked(lists, p)
  {
    hide Has, Row, Col, Byte, In256, Low8;
    RowCol(p);
  }

  lemma WholeIs(n: Level, m: Level)
    requires In32(n) && Low8(m)
    ensures In256(Level(Whole(n.w, m.w))) && Row(Level(Whole(n.w, m.w))) == n && Col(Level(Whole(n.w, m.w))) == m
  {
    WholeParts(n.w, m.w);
  }

  lemma LeastParts(n: Level, m: Level, p: Level)
    requires In32(n) && Low8(m) && In256(p)
    ensures n.w <= Row(p).w && (n == Row(p) ==> m.w <= Col(p).w) ==> !Below(p, Level(Whole(n.w, m.w)))
  {
    WholeIs(n, m);
    PartsOrder(Whole(n.w, m.w), p.w);
    SameLevel(n, Row(p));
  }
}
