/** The dashboard page (`Dashboard`): the kanban pipeline, the reminder follow-up list and the
    four indicator counts, all computed from the `products` list the page holds. The page state
    is the class `DashboardPage`. */
module Dashboard {
  import opened Wrappers
  import opened Seqs
  import opened Records

  // ---------------------------------------------------------------- kanban

  /** The pipeline columns, in display order. */
  const Statuses: seq<string> := [
    "Id\U{00E9}e", "Prototype", "En attente", "Valid\U{00E9}", "Command\U{00E9}",
    "Production", "Commercialis\U{00E9}"]

  function HasStatus(status: string): Product -> bool
  {
    (p: Product) => p.status == status
  }

  /** The cards of the column `status`: `products.filter((p) => p.status === status)`. */
  function Column(products: seq<Product>, status: string): (r: seq<Product>)
    ensures IsSubsequence(r, products)
  {
    FilterIsSubsequence(products, HasStatus(status));
    Filter(products, HasStatus(status))
  }

  /** A column shows exactly the products whose status is its name. */
  lemma ColumnMembers(products: seq<Product>, status: string, p: Product)
    ensures p in Column(products, status) <==> p in products && p.status == status
  {
    var r := Column(products, status);
    FilterMembers(products, HasStatus(status));
    if p in products && p.status == status {
      var k :| 0 <= k < |products| && products[k] == p;
      assert HasStatus(status)(products[k]);
    }
    if p in r {
      var k :| 0 <= k < |r| && r[k] == p;
      assert HasStatus(status)(r[k]);
    }
  }

  /** A column holds every copy of a product with its status and no copy of any other. */
  lemma ColumnCounts(products: seq<Product>, status: string)
    ensures forall p ::
      multiset(Column(products, status))[p] == (if p.status == status then multiset(products)[p] else 0)
  {
    FilterMultiset(products, HasStatus(status));
  }

  /** An empty `votes` object counts as unanimous: `every` holds on no entries. */
  lemma EmptyVotesUnanimous(p: Product)
    ensures Unanimous(p.(votes := Some(map[])))
  {
  }

  /** A product whose status is none of the seven pipeline statuses appears in no column. */
  lemma UnlistedStatusHidden(products: seq<Product>, p: Product)
    requires p.status !in Statuses
    ensures forall c :: 0 <= c < |Statuses| ==> p !in Column(products, Statuses[c])
  {
    forall c | 0 <= c < |Statuses| ensures p !in Column(products, Statuses[c]) {
      ColumnMembers(products, Statuses[c], p);
    }
  }

  /** What the drag-and-drop library reports when a card is dropped. */
  datatype DropResult = DropResult(source: string, destination: Option<string>, draggableId: string)

  /** The `products.map` of `onDragEnd`: the card `id` takes the status `status`. Every card keeps
      its place and id, only the matching card changes, and only in its status. */
  function WithStatus(products: seq<Product>, id: string, status: string): (r: seq<Product>)
    ensures |r| == |products|
    ensures forall k :: 0 <= k < |r| ==> r[k].id == products[k].id
    ensures forall k :: 0 <= k < |r| && products[k].id != id ==> r[k] == products[k]
    ensures forall k :: 0 <= k < |r| && products[k].id == id ==>
      r[k].status == status && r[k].(status := products[k].status) == products[k]
  {
    seq(|products|, k requires 0 <= k < |products| =>
      if products[k].id == id then products[k].(status := status) else products[k])
  }

  /** Dropping a card of column `from` into another column `to` moves exactly that one card:
      `from` loses one card, `to` gains one, and every other column is unchanged. */
  lemma DragMovesOneCard(products: seq<Product>, id: string, from: string, to: string, i: nat)
    requires UniqueIds(products)
    requires i < |products| && products[i].id == id && products[i].status == from
    requires from != to
    ensures |Column(WithStatus(products, id, to), from)| + 1 == |Column(products, from)|
    ensures |Column(WithStatus(products, id, to), to)| == |Column(products, to)| + 1
    ensures forall c :: c != from && c != to ==>
      Column(WithStatus(products, id, to), c) == Column(products, c)
  {
    var r := WithStatus(products, id, to);
    assert forall k :: 0 <= k < |r| && k != i ==> r[k] == products[k];
    FilterCountDropOne(products, r, HasStatus(from), i);
    FilterCountDropOne(r, products, HasStatus(to), i);
    forall c | c != from && c != to ensures Column(r, c) == Column(products, c) {
      FilterPointwise(r, products, HasStatus(c));
    }
  }

  // ---------------------------------------------------------------- reminders

  predicate HasReminder(p: Product)
  {
    p.reminderDate.Some?
  }

  /** The reminder day of a product; only read for products that have one. */
  function ReminderDay(p: Product): Date
  {
    p.reminderDate.GetOr(Date(0, 0, 0))
  }

  /** `new Date(a) - new Date(b) < 0` for two calendar days: year, then month, then day. */
  predicate DateBefore(a: Date, b: Date)
  {
    a.year < b.year || (a.year == b.year && (a.month < b.month || (a.month == b.month && a.day < b.day)))
  }

  /** No later element has an earlier reminder day. */
  predicate SortedByDay(s: seq<Product>)
  {
    forall i, j :: 0 <= i < j < |s| ==> !DateBefore(ReminderDay(s[j]), ReminderDay(s[i]))
  }

  /** Where `x` goes in the sorted `t`: after every element whose day is strictly earlier, so
      before those of the same day. */
  function InsertPos(x: Product, t: seq<Product>): (i: nat)
    requires SortedByDay(t)
    ensures i <= |t|
    ensures forall k :: 0 <= k < i ==> DateBefore(ReminderDay(t[k]), ReminderDay(x))
    ensures forall k :: i <= k < |t| ==> !DateBefore(ReminderDay(t[k]), ReminderDay(x))
    decreases |t|
  {
    if t == [] || !DateBefore(ReminderDay(t[0]), ReminderDay(x)) then 0
    else 1 + InsertPos(x, t[1..])
  }

  /** One step of the stable sort: `x` inserted into the sorted `t`. */
  function InsertByDay(x: Product, t: seq<Product>): (r: seq<Product>)
    requires SortedByDay(t)
    ensures SortedByDay(r)
    ensures multiset(r) == multiset(t) + multiset{x}
  {
    var i := InsertPos(x, t);
    InsertKeepsOrder(x, t, i);
    InsertMultiset(x, t, i);
    t[..i] + [x] + t[i..]
  }

  lemma DateBeforeTransitive(a: Date, b: Date, c: Date)
    requires DateBefore(a, b) && !DateBefore(c, b)
    ensures DateBefore(a, c)
  {
  }

  lemma InsertKeepsOrder(x: Product, t: seq<Product>, i: nat)
    requires SortedByDay(t) && i <= |t|
    requires forall k :: 0 <= k < i ==> DateBefore(ReminderDay(t[k]), ReminderDay(x))
    requires forall k :: i <= k < |t| ==> !DateBefore(ReminderDay(t[k]), ReminderDay(x))
    ensures SortedByDay(t[..i] + [x] + t[i..])
  {
    var r := t[..i] + [x] + t[i..];
    forall a, b | 0 <= a < b < |r| ensures !DateBefore(ReminderDay(r[b]), ReminderDay(r[a])) {
      if b < i {
        assert r[a] == t[a] && r[b] == t[b];
      } else if b == i {
        assert r[a] == t[a] && r[b] == x;
      } else if a < i {
        assert r[a] == t[a] && r[b] == t[b - 1];
        DateBeforeTransitive(ReminderDay(t[a]), ReminderDay(x), ReminderDay(t[b - 1]));
      } else if a == i {
        assert r[a] == x && r[b] == t[b - 1];
      } else {
        assert r[a] == t[a - 1] && r[b] == t[b - 1];
      }
    }
  }

  lemma InsertMultiset(x: Product, t: seq<Product>, i: nat)
    requires i <= |t|
    ensures multiset(t[..i] + [x] + t[i..]) == multiset(t) + multiset{x}
  {
    SplitAt(t, i);
  }

  /** The `sort` of `suivi`: a stable sort by reminder day (the comparator subtracts the dates). */
  function SortByDay(s: seq<Product>): (r: seq<Product>)
    ensures SortedByDay(r)
    ensures multiset(r) == multiset(s)
    decreases |s|
  {
    if s == [] then []
    else
      assert s == [s[0]] + s[1..];
      InsertByDay(s[0], SortByDay(s[1..]))
  }

  function OnDay(d: Date): Product -> bool
  {
    (p: Product) => ReminderDay(p) == d
  }

  /** What a filter keeps of an insertion: what it keeps before the insertion point, then of
      `x`, then of the rest. */
  lemma FilterInsert(x: Product, t: seq<Product>, q: Product -> bool)
    requires SortedByDay(t)
    ensures var i := InsertPos(x, t);
      Filter(InsertByDay(x, t), q) == Filter(t[..i], q) + Filter([x], q) + Filter(t[i..], q)
  {
    var i := InsertPos(x, t);
    FilterAppend(t[..i] + [x], t[i..], q);
    FilterAppend(t[..i], [x], q);
  }

  /** Sorting keeps the products of one day in their original order: the sort is stable. */
  lemma {:induction false} SortByDayStable(s: seq<Product>, d: Date)
    ensures Filter(SortByDay(s), OnDay(d)) == Filter(s, OnDay(d))
    decreases |s|
  {
    if s != [] {
      SortByDayStable(s[1..], d);
      InsertStable(s[0], SortByDay(s[1..]), d);
      assert s == [s[0]] + s[1..];
      FilterAppend([s[0]], s[1..], OnDay(d));
    }
  }

  /** Inserting `x` puts it before every element of its own day. */
  lemma InsertStable(x: Product, t: seq<Product>, d: Date)
    requires SortedByDay(t)
    ensures Filter(InsertByDay(x, t), OnDay(d)) == Filter([x], OnDay(d)) + Filter(t, OnDay(d))
  {
    var q := OnDay(d);
    var i := InsertPos(x, t);
    var before, here, after := Filter(t[..i], q), Filter([x], q), Filter(t[i..], q);
    assert Filter(InsertByDay(x, t), q) == before + here + after by {
      FilterInsert(x, t, q);
    }
    assert Filter(t, q) == before + after by {
      SplitAt(t, i);
      FilterAppend(t[..i], t[i..], q);
    }
    if ReminderDay(x) == d {
      InsertPrefixOtherDays(x, t);
    } else {
      assert [x][1..] == [];
    }
    MoveEmptyFirst(before, here, after);
  }

  lemma MoveEmptyFirst<T>(a: seq<T>, b: seq<T>, c: seq<T>)
    requires a == [] || b == []
    ensures a + b + c == b + (a + c)
  {
  }

  /** The elements before the insertion point are all on other days than `x`. */
  lemma InsertPrefixOtherDays(x: Product, t: seq<Product>)
    requires SortedByDay(t)
    ensures Filter(t[..InsertPos(x, t)], OnDay(ReminderDay(x))) == []
  {
    var i := InsertPos(x, t);
    var q := OnDay(ReminderDay(x));
    forall k | 0 <= k < i ensures !q(t[..i][k]) {
      assert DateBefore(ReminderDay(t[k]), ReminderDay(x));
    }
    FilterNone(t[..i], q);
  }

  /** Inserting one product adds its own count to the count of the list. */
  lemma InsertFilterCount(x: Product, t: seq<Product>, q: Product -> bool)
    requires SortedByDay(t)
    ensures |Filter(InsertByDay(x, t), q)| == |Filter([x], q)| + |Filter(t, q)|
  {
    var i := InsertPos(x, t);
    var a, b := t[..i], t[i..];
    FilterInsert(x, t, q);
    SplitAt(t, i);
    FilterAppend(a, b, q);
    assert |Filter(t, q)| == |Filter(a, q)| + |Filter(b, q)|;
  }

  /** Sorting does not change how many elements satisfy a predicate. */
  lemma {:induction false} SortByDayFilterCount(s: seq<Product>, q: Product -> bool)
    ensures |Filter(SortByDay(s), q)| == |Filter(s, q)|
    decreases |s|
  {
    if s != [] {
      var t := SortByDay(s[1..]);
      calc {
        |Filter(SortByDay(s), q)|;
        |Filter(InsertByDay(s[0], t), q)|;
        { InsertFilterCount(s[0], t, q); }
        |Filter([s[0]], q)| + |Filter(t, q)|;
        { SortByDayFilterCount(s[1..], q); }
        |Filter([s[0]], q)| + |Filter(s[1..], q)|;
        { ConsTail(s); FilterAppend([s[0]], s[1..], q); }
        |Filter(s, q)|;
      }
    }
  }

  /** `suivi`: the products that have a reminder, earliest day first. */
  function Suivi(products: seq<Product>): (r: seq<Product>)
    ensures SortedByDay(r)
    ensures multiset(r) == multiset(Filter(products, HasReminder))
  {
    SortByDay(Filter(products, HasReminder))
  }

  /** The follow-up list holds exactly the products that have a reminder, no more of them than
      there are products. */
  lemma SuiviMembers(products: seq<Product>)
    ensures forall p :: p in Suivi(products) <==> p in products && p.reminderDate.Some?
    ensures |Suivi(products)| <= |products|
  {
    var f := Filter(products, HasReminder);
    FilterMembers(products, HasReminder);
    assert |Suivi(products)| == |multiset(f)| == |f|;
    forall p ensures p in Suivi(products) <==> p in products && p.reminderDate.Some? {
      assert p in Suivi(products) <==> p in multiset(f);
      if p in products && p.reminderDate.Some? {
        var k :| 0 <= k < |products| && products[k] == p;
        assert HasReminder(products[k]);
      }
    }
  }

  /** Products on the same day keep their list order in the follow-up list. */
  lemma SuiviStable(products: seq<Product>, d: Date)
    ensures Filter(Suivi(products), OnDay(d)) == Filter(Filter(products, HasReminder), OnDay(d))
  {
    SortByDayStable(Filter(products, HasReminder), d);
  }

  /** `handleDone`'s `products.map`: the reminder of product `id` is marked done. Every product
      keeps its place and id, only the matching one changes, and only in `reminderDone`. */
  function MarkDone(products: seq<Product>, id: string): (r: seq<Product>)
    ensures |r| == |products|
    ensures forall k :: 0 <= k < |r| ==> r[k].id == products[k].id
    ensures forall k :: 0 <= k < |r| && products[k].id != id ==> r[k] == products[k]
    ensures forall k :: 0 <= k < |r| && products[k].id == id ==>
      r[k].reminderDone && r[k].(reminderDone := products[k].reminderDone) == products[k]
  {
    seq(|products|, k requires 0 <= k < |products| =>
      if products[k].id == id then products[k].(reminderDone := true) else products[k])
  }

  /** Marking a reminder done twice is marking it once. */
  lemma MarkDoneIdempotent(products: seq<Product>, id: string)
    ensures MarkDone(MarkDone(products, id), id) == MarkDone(products, id)
  {
    var once := MarkDone(products, id);
    var twice := MarkDone(once, id);
    forall k | 0 <= k < |once| ensures twice[k] == once[k] {
      if products[k].id == id {
        assert once[k] == products[k].(reminderDone := true);
      }
    }
  }

  /** `colorDays(days)`: the badge class for the days left before a reminder. */
  const Overdue := "bg-red-500 text-white"
  const DueSoon := "bg-orange-400 text-white"
  const NotDue := "bg-green-500 text-white"

  /** The three bands cover every number of days exactly once: at most 0 is red, 1 to 3 orange,
      more than 3 green. */
  function ColorDays(days: int): (c: string)
    ensures c == Overdue <==> days <= 0
    ensures c == DueSoon <==> 1 <= days <= 3
    ensures c == NotDue <==> days > 3
  {
    if days <= 0 then Overdue
    else if days <= 3 then DueSoon
    else NotDue
  }

  /** How urgent a badge looks: red 2, orange 1, green 0. */
  function Urgency(c: string): nat
  {
    if c == Overdue then 2 else if c == DueSoon then 1 else 0
  }

  /** Fewer days left never gives a less urgent badge. */
  lemma ColorDaysMonotone(a: int, b: int)
    requires a <= b
    ensures Urgency(ColorDays(a)) >= Urgency(ColorDays(b))
  {
  }

  // ---------------------------------------------------------------- indicators

  const Heart := "\U{2764}\U{FE0F}"
  const ThumbsUp := "\U{1F44D}"

  /** Both voters chose the heart, or both chose the thumbs-up. */
  predicate Agreed(v: Vote)
  {
    (v.guillaume == Heart && v.david == Heart) || (v.guillaume == ThumbsUp && v.david == ThumbsUp)
  }

  /** The product has a `votes` object and every entry in it is agreed (an empty object counts). */
  predicate Unanimous(p: Product)
  {
    p.votes.Some? && forall k :: k in p.votes.value ==> Agreed(p.votes.value[k])
  }

  /** No `votes`, no `files`, or an empty `files` list. */
  predicate NeedsAttention(p: Product)
  {
    p.votes.None? || p.files.None? || |p.files.value| == 0
  }

  predicate NotDone(p: Product)
  {
    !p.reminderDone
  }

  /** A product with a reminder that is not yet done. */
  predicate AwaitingReminder(p: Product)
  {
    p.reminderDate.Some? && !p.reminderDone
  }

  /** The values of the four indicator cards. */
  datatype Indicators = Indicators(total: nat, pendingReminders: nat, unanimous: nat, needsAttention: nat)

  /** `indicators`: all products, the follow-up entries not done, the unanimously approved
      products, and the products lacking votes or photos. */
  function IndicatorsOf(products: seq<Product>): (r: Indicators)
    ensures r.pendingReminders <= |Suivi(products)|
    ensures r.unanimous <= r.total && r.needsAttention <= r.total
  {
    Indicators(|products|, |Filter(Suivi(products), NotDone)|,
               |Filter(products, Unanimous)|, |Filter(products, NeedsAttention)|)
  }

  /** The pending count is the number of products with a reminder not done, so it is at most the
      length of the follow-up list, itself at most the number of products. */
  lemma PendingCount(products: seq<Product>)
    ensures IndicatorsOf(products).pendingReminders == |Filter(products, AwaitingReminder)|
    ensures IndicatorsOf(products).pendingReminders <= |Suivi(products)| <= |products|
  {
    var f := Filter(products, HasReminder);
    SortByDayFilterCount(f, NotDone);
    FilterFilter(products, HasReminder, NotDone, AwaitingReminder);
    SuiviMembers(products);
  }

  /** A product with no `votes` is never unanimous, so the unanimous count and the count of
      products without votes never exceed the number of products together. */
  lemma UnanimousNeedsVotes(products: seq<Product>)
    ensures IndicatorsOf(products).unanimous + |Filter(products, NoVotes)| <= |products|
  {
    FilterDisjointCount(products, Unanimous, NoVotes);
  }

  predicate NoVotes(p: Product)
  {
    p.votes.None?
  }

  /** Any entry where the two voters differ (a heart against a thumbs-up, either way round, or a
      missing vote) keeps a product out of the unanimous count. */
  lemma SplitVoteNotUnanimous(p: Product, voter: string)
    requires p.votes.Some? && voter in p.votes.value
    requires !Agreed(p.votes.value[voter])
    ensures !Unanimous(p)
  {
    assert !Agreed(p.votes.value[voter]);
  }

  /** Moving a card changes none of the four indicators. */
  lemma DragKeepsIndicators(products: seq<Product>, id: string, status: string)
    ensures IndicatorsOf(WithStatus(products, id, status)) == IndicatorsOf(products)
  {
    var r := WithStatus(products, id, status);
    PendingCount(products);
    PendingCount(r);
    FilterCountPointwise(r, products, AwaitingReminder);
    FilterCountPointwise(r, products, Unanimous);
    FilterCountPointwise(r, products, NeedsAttention);
  }

  /** Marking a pending reminder done lowers the pending count by exactly one and changes no
      other indicator. */
  lemma DoneLowersPending(products: seq<Product>, id: string, i: nat)
    requires UniqueIds(products)
    requires i < |products| && products[i].id == id && AwaitingReminder(products[i])
    ensures IndicatorsOf(MarkDone(products, id)).pendingReminders + 1 ==
      IndicatorsOf(products).pendingReminders
    ensures IndicatorsOf(MarkDone(products, id)).total == IndicatorsOf(products).total
    ensures IndicatorsOf(MarkDone(products, id)).unanimous == IndicatorsOf(products).unanimous
    ensures IndicatorsOf(MarkDone(products, id)).needsAttention ==
      IndicatorsOf(products).needsAttention
  {
    var r := MarkDone(products, id);
    assert forall k :: 0 <= k < |r| && k != i ==> r[k] == products[k];
    forall k | 0 <= k < |r|
      ensures Unanimous(r[k]) == Unanimous(products[k])
      ensures NeedsAttention(r[k]) == NeedsAttention(products[k])
    {
      assert r[k].votes == products[k].votes && r[k].files == products[k].files;
    }
    PendingCount(products);
    PendingCount(r);
    FilterCountDropOne(products, r, AwaitingReminder, i);
    FilterCountPointwise(r, products, Unanimous);
    FilterCountPointwise(r, products, NeedsAttention);
  }

  // ---------------------------------------------------------------- page state

  class DashboardPage {
    var products: seq<Product>

    /** The first load: the rows returned, or nothing when the query failed or returned null. */
    constructor(loaded: Option<seq<Product>>)
      ensures products == loaded.GetOr([])
    {
      products := loaded.GetOr([]);
    }

    /** `onDragEnd(result)`: a drop outside any column, or back into its own column, changes
        nothing; otherwise the dragged card takes the destination column as its status. */
    method OnDragEnd(result: DropResult)
      modifies this`products
      ensures products ==
        if result.destination.None? || result.source == result.destination.value then old(products)
        else WithStatus(old(products), result.draggableId, result.destination.value)
    {
      if result.destination.None? {
        return;
      }
      var destination := result.destination.value;
      if result.source != destination {
        products := WithStatus(products, result.draggableId, destination);
      }
    }

    /** `handleDone(id)`: the list is updated whatever the backend answered. */
    method HandleDone(id: string)
      modifies this`products
      ensures products == MarkDone(old(products), id)
    {
      products := MarkDone(products, id);
    }
  }
}
