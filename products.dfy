/** The catalogue page (`Products`): cost formulas, tag handling, the folder and tag option lists,
    the search filter, the form drafts built from a stored product, and the `items` list
    transitions of saving and removing. The page state is the class `ProductsPage`. */
module Products {
  import opened Wrappers
  import opened Seqs
  import opened Text
  import opened Records
  import opened ProductHelpers

  const DefaultMargin: real := 0.45
  const DefaultResellerDiscount: real := 0.30
  const ElectricityRate: real := 0.12

  // ---------------------------------------------------------------- costs

  /** Material + machine and labour time + energy, before clamping. */
  function PrintTotal(b: PrintParams): real
  {
    (b.gramsUsed / 1000.0) * b.spoolCostPerKg + b.printHours * (b.machineRate + b.laborRate) +
    b.energyKwh * ElectricityRate
  }

  /** Unit cost + import + customisation, before clamping. */
  function SupplyTotal(b: SupplyParams): real
  {
    b.unitCost + b.importPerUnit + b.customizationCost
  }

  /** `Math.max(0, x)`. */
  function ClampAtZero(x: real): (r: real)
    ensures r >= 0.0 && r >= x
    ensures r == 0.0 || r == x
  {
    if x < 0.0 then 0.0 else x
  }

  /** `cost3D`: never negative; the whole total when it is not negative, else 0 (the clamp is
      applied to the total, not to each term). */
  function Cost3D(b: PrintParams): (c: real)
    ensures c >= 0.0 && c >= PrintTotal(b)
    ensures c == 0.0 || c == PrintTotal(b)
  {
    ClampAtZero(PrintTotal(b))
  }

  /** `costOrdered`: never negative; the whole total when it is not negative, else 0. */
  function CostOrdered(b: SupplyParams): (c: real)
    ensures c >= 0.0 && c >= SupplyTotal(b)
    ensures c == 0.0 || c == SupplyTotal(b)
  {
    ClampAtZero(SupplyTotal(b))
  }

  /** `empty3D`: the parameters of a fresh form, which cost 3 of material plus 6 of machine time. */
  function Empty3D(): (b: PrintParams)
    ensures Cost3D(b) == 9.0
  {
    PrintParams("PLA", "Noir", 120.0, 25.0, 3.0, 2.0, 0.0, 0.0)
  }

  /** `emptyOrdered`: the parameters of a fresh form, which cost 20 + 2.5. */
  function EmptyOrdered(): (b: SupplyParams)
    ensures CostOrdered(b) == 22.5
  {
    SupplyParams("", "", 20.0, 2.5, 0.0, 0.0, "")
  }

  /** The ordered-build parameters loaded from a record whose `build` lacks them (`?? 0`, `?? ""`);
      unlike `emptyOrdered`, every amount is 0. */
  function MissingSupply(): (b: SupplyParams)
    ensures CostOrdered(b) == 0.0
  {
    SupplyParams("", "", 0.0, 0.0, 0.0, 0.0, "")
  }

  /** Over non-negative parameters the 3D cost never decreases when any parameter grows. */
  lemma Cost3DMonotone(a: PrintParams, b: PrintParams)
    requires 0.0 <= a.gramsUsed <= b.gramsUsed && 0.0 <= a.spoolCostPerKg <= b.spoolCostPerKg
    requires 0.0 <= a.printHours <= b.printHours
    requires 0.0 <= a.machineRate <= b.machineRate && 0.0 <= a.laborRate <= b.laborRate
    requires a.energyKwh <= b.energyKwh
    ensures Cost3D(a) <= Cost3D(b)
  {
    var ga, gb := a.gramsUsed / 1000.0, b.gramsUsed / 1000.0;
    var ma, mb := ga * a.spoolCostPerKg, gb * b.spoolCostPerKg;
    assert ma <= mb by {
      assert (gb - ga) * a.spoolCostPerKg >= 0.0;
      assert gb * (b.spoolCostPerKg - a.spoolCostPerKg) >= 0.0;
    }
    var ra, rb := a.machineRate + a.laborRate, b.machineRate + b.laborRate;
    var ta, tb := a.printHours * ra, b.printHours * rb;
    assert ta <= tb by {
      assert (b.printHours - a.printHours) * ra >= 0.0;
      assert b.printHours * (rb - ra) >= 0.0;
    }
    var ea, eb := a.energyKwh * ElectricityRate, b.energyKwh * ElectricityRate;
    assert ea <= eb by {
      assert eb - ea == (b.energyKwh - a.energyKwh) * ElectricityRate;
    }
    assert PrintTotal(a) == ma + ta + ea;
    assert PrintTotal(b) == mb + tb + eb;
  }

  /** The supplier cost never decreases when any of its amounts grows. */
  lemma CostOrderedMonotone(a: SupplyParams, b: SupplyParams)
    requires a.unitCost <= b.unitCost && a.importPerUnit <= b.importPerUnit
    requires a.customizationCost <= b.customizationCost
    ensures CostOrdered(a) <= CostOrdered(b)
  {
  }

  // ---------------------------------------------------------------- tags

  /** What `toTagsArray` can produce: non-empty, trimmed, without a comma. */
  predicate WellFormedTag(t: string)
  {
    t != [] && !IsSpace(t[0]) && !IsSpace(t[|t| - 1]) && ',' !in t
  }

  /** `.map((t) => t.trim()).filter(Boolean)`. */
  function CleanPieces(pieces: seq<string>): (tags: seq<string>)
    requires forall k :: 0 <= k < |pieces| ==> ',' !in pieces[k]
    ensures |tags| <= |pieces|
    ensures forall k :: 0 <= k < |tags| ==> WellFormedTag(tags[k])
    decreases |pieces|
  {
    if pieces == [] then []
    else
      var t := Trim(pieces[0]);
      TrimmedPiece(pieces[0]);
      assert forall k :: 0 <= k < |pieces| - 1 ==> pieces[1..][k] == pieces[k + 1];
      var rest := CleanPieces(pieces[1..]);
      (if t == [] then [] else [t]) + rest
  }

  /** A trimmed piece without a comma is empty or a well-formed tag. */
  lemma TrimmedPiece(p: string)
    requires ',' !in p
    ensures Trim(p) == [] || WellFormedTag(Trim(p))
  {
    assert ',' !in Trim(p);
  }

  /** `toTagsArray(txt)`: the comma-separated entries of `txt`, trimmed, empty ones dropped. */
  function ToTagsArray(txt: string): (tags: seq<string>)
    ensures forall k :: 0 <= k < |tags| ==> WellFormedTag(tags[k])
  {
    CleanPieces(Split(txt, ','))
  }

  /** `tags.join(", ")`: the text the tag field shows for a list of tags. */
  function JoinTags(tags: seq<string>): string
  {
    Join(tags, ", ")
  }

  lemma CleanPiecesCons(p: string, ps: seq<string>)
    requires ',' !in p && forall k :: 0 <= k < |ps| ==> ',' !in ps[k]
    ensures CleanPieces([p] + ps) == (if Trim(p) == [] then [] else [Trim(p)]) + CleanPieces(ps)
  {
    assert ([p] + ps)[1..] == ps;
  }

  /** A space after a comma is trimmed away. */
  lemma ToTagsArrayLeadingSpace(x: string)
    ensures ToTagsArray(" " + x) == ToTagsArray(x)
  {
    SplitPrepend(' ', x, ',');
    var pieces := Split(x, ',');
    assert Split(" " + x, ',') == [" " + pieces[0]] + pieces[1..];
    CleanPiecesLeadingSpace(pieces[0], pieces[1..]);
    assert [pieces[0]] + pieces[1..] == pieces;
  }

  lemma CleanPiecesLeadingSpace(p: string, ps: seq<string>)
    requires ',' !in p && forall k :: 0 <= k < |ps| ==> ',' !in ps[k]
    ensures CleanPieces([" " + p] + ps) == CleanPieces([p] + ps)
  {
    CleanPiecesCons(" " + p, ps);
    CleanPiecesCons(p, ps);
    TrimLeadingSpace(p);
  }

  /** A well-formed tag before a comma is read back as the first tag. */
  lemma ToTagsArrayCons(t: string, y: string)
    requires WellFormedTag(t)
    ensures ToTagsArray(t + [','] + y) == [t] + ToTagsArray(y)
  {
    SplitCons(t, y, ',');
    CleanPiecesCons(t, Split(y, ','));
    TrimIdentity(t);
  }

  /** Reading back the text of a list of well-formed tags gives the same list. */
  lemma {:induction false} TagsRoundTrip(tags: seq<string>)
    requires forall k :: 0 <= k < |tags| ==> WellFormedTag(tags[k])
    ensures ToTagsArray(JoinTags(tags)) == tags
    decreases |tags|
  {
    if tags == [] {
      TagsRoundTripEmpty();
    } else if |tags| == 1 {
      TagsRoundTripSingle(tags[0]);
      assert tags == [tags[0]];
    } else {
      var rest := tags[1..];
      assert forall k :: 0 <= k < |rest| ==> WellFormedTag(rest[k]) by {
        forall k | 0 <= k < |rest| ensures WellFormedTag(rest[k]) {
          assert rest[k] == tags[k + 1];
        }
      }
      var j := JoinTags(rest);
      calc {
        ToTagsArray(JoinTags(tags));
        { assert JoinTags(tags) == tags[0] + ", " + j; }
        ToTagsArray(tags[0] + ", " + j);
        { TagsRoundTripStep(tags[0], j); }
        [tags[0]] + ToTagsArray(j);
        { TagsRoundTrip(rest); }
        [tags[0]] + rest;
        { ConsTail(tags); }
        tags;
      }
    }
  }

  lemma TagsRoundTripEmpty()
    ensures ToTagsArray(JoinTags([])) == []
  {
    assert Split("", ',') == [""];
  }

  lemma TagsRoundTripSingle(t: string)
    requires WellFormedTag(t)
    ensures ToTagsArray(JoinTags([t])) == [t]
  {
    assert JoinTags([t]) == t;
    SplitSingle(t, ',');
    TrimIdentity(t);
  }

  lemma TagsRoundTripStep(t: string, x: string)
    requires WellFormedTag(t)
    ensures ToTagsArray(t + ", " + x) == [t] + ToTagsArray(x)
  {
    assert t + ", " + x == t + [','] + (" " + x);
    ToTagsArrayCons(t, " " + x);
    ToTagsArrayLeadingSpace(x);
  }

  /** `addExistingTag(tag)`: the new text of the tag field. */
  function AddTagText(text: string, tag: string): string
  {
    var current := ToTagsArray(text);
    if tag !in current then JoinTags(current + [tag]) else text
  }

  /** Adding a well-formed tag appends it to the tags the field holds, unless it is already there. */
  lemma AddTagTags(text: string, tag: string)
    requires WellFormedTag(tag)
    ensures ToTagsArray(AddTagText(text, tag)) ==
      if tag in ToTagsArray(text) then ToTagsArray(text) else ToTagsArray(text) + [tag]
  {
    var current := ToTagsArray(text);
    if tag !in current {
      AppendTagRoundTrip(current, tag);
    }
  }

  lemma AppendTagRoundTrip(current: seq<string>, tag: string)
    requires forall k :: 0 <= k < |current| ==> WellFormedTag(current[k])
    requires WellFormedTag(tag)
    ensures ToTagsArray(JoinTags(current + [tag])) == current + [tag]
  {
    var next := current + [tag];
    forall k | 0 <= k < |next| ensures WellFormedTag(next[k]) {
      if k < |current| {
        assert next[k] == current[k];
      }
    }
    TagsRoundTrip(next);
  }

  /** Adding the same well-formed tag twice is adding it once. */
  lemma AddTagIdempotent(text: string, tag: string)
    requires WellFormedTag(tag)
    ensures AddTagText(AddTagText(text, tag), tag) == AddTagText(text, tag)
  {
    AddTagTags(text, tag);
    var once := AddTagText(text, tag);
    assert tag in ToTagsArray(once) by {
      var current := ToTagsArray(text);
      if tag !in current {
        assert ToTagsArray(once) == current + [tag];
        assert (current + [tag])[|current|] == tag;
      }
    }
  }

  // ---------------------------------------------------------------- folder and tag options

  /** `Array.from(new Set(xs)).sort(...)`: the distinct values of `xs`, in ascending order. */
  function SortedDistinct(xs: seq<string>): (r: seq<string>)
    ensures StrictlySorted(r)
    ensures forall y :: y in r <==> y in xs
    decreases |xs|
  {
    if xs == [] then []
    else
      var init := xs[..|xs| - 1];
      assert xs == init + [xs[|xs| - 1]];
      InsertDistinct(SortedDistinct(init), xs[|xs| - 1])
  }

  /** `items.map((it) => it.folder).filter(Boolean)`. */
  function FolderValues(items: seq<Product>): (fs: seq<string>)
    ensures forall f :: f in fs <==> f != "" && exists k :: 0 <= k < |items| && items[k].folder == f
    decreases |items|
  {
    if items == [] then []
    else
      var rest := FolderValues(items[1..]);
      assert forall k :: 1 <= k < |items| ==> items[k] == items[1..][k - 1];
      (if items[0].folder != "" then [items[0].folder] else []) + rest
  }

  /** `existingFolders`: every non-empty folder exactly once, in ascending order. */
  function ExistingFolders(items: seq<Product>): (r: seq<string>)
    ensures StrictlySorted(r)
    ensures forall f :: f in r <==> f != "" && exists k :: 0 <= k < |items| && items[k].folder == f
  {
    SortedDistinct(FolderValues(items))
  }

  // ---------------------------------------------------------------- search

  /** The lower-cased "name code description tags" text a search query is looked up in. */
  function SearchText(p: Product): string
  {
    Lower(p.name + " " + p.code + " " + p.description + " " + Join(p.tags, " "))
  }

  /** The test `filtered` applies to one item: kind filter and case-insensitive substring search. */
  predicate Matches(filterKind: string, q: string, p: Product)
  {
    (filterKind == "all" || p.kind == filterKind) && (q == "" || Contains(SearchText(p), Lower(q)))
  }

  function MatchesFilter(filterKind: string, q: string): Product -> bool
  {
    (p: Product) => Matches(filterKind, q, p)
  }

  /** `filtered`: the items that pass the kind filter and contain the query, in list order. */
  function FilterItems(items: seq<Product>, filterKind: string, q: string): (r: seq<Product>)
    ensures IsSubsequence(r, items)
    ensures forall k :: 0 <= k < |r| ==> Matches(filterKind, q, r[k])
    ensures forall k :: 0 <= k < |items| && Matches(filterKind, q, items[k]) ==> items[k] in r
  {
    FilterIsSubsequence(items, MatchesFilter(filterKind, q));
    FilterMembers(items, MatchesFilter(filterKind, q));
    Filter(items, MatchesFilter(filterKind, q))
  }

  /** The list shows every copy of a matching item and no copy of any other. */
  lemma FilterItemsCounts(items: seq<Product>, filterKind: string, q: string)
    ensures forall p ::
      multiset(FilterItems(items, filterKind, q))[p] ==
        (if Matches(filterKind, q, p) then multiset(items)[p] else 0)
  {
    FilterMultiset(items, MatchesFilter(filterKind, q));
  }

  /** With kind "all" and an empty query every item is listed. */
  lemma FilterItemsShowsAll(items: seq<Product>)
    ensures FilterItems(items, "all", "") == items
  {
    FilterAll(items, MatchesFilter("all", ""));
  }

  /** Queries that differ only in letter case list the same items. */
  lemma FilterItemsCaseInsensitive(items: seq<Product>, filterKind: string, q1: string, q2: string)
    requires Lower(q1) == Lower(q2)
    ensures FilterItems(items, filterKind, q1) == FilterItems(items, filterKind, q2)
  {
    assert |q1| == |q2|;
    FilterCongruent(items, MatchesFilter(filterKind, q1), MatchesFilter(filterKind, q2));
  }

  /** Typing more of a query only narrows the list: if the new query contains the old one, the
      new list is a subsequence of the old one. */
  lemma FilterItemsNarrowing(items: seq<Product>, filterKind: string, q1: string, q2: string)
    requires Contains(Lower(q2), Lower(q1))
    ensures IsSubsequence(FilterItems(items, filterKind, q2), FilterItems(items, filterKind, q1))
  {
    forall k | 0 <= k < |items| && Matches(filterKind, q2, items[k])
      ensures Matches(filterKind, q1, items[k])
    {
      if q1 != "" {
        assert q2 != "";
        ContainsTransitive(SearchText(items[k]), Lower(q2), Lower(q1));
      }
    }
    FilterStrongerSubsequence(items, MatchesFilter(filterKind, q2), MatchesFilter(filterKind, q1));
  }

  // ---------------------------------------------------------------- list transitions

  function IdIsNot(id: string): Product -> bool
  {
    (p: Product) => p.id != id
  }

  /** `items.filter((p) => p.id !== id)`: exactly the entries with another id, in order. */
  function RemoveById(items: seq<Product>, id: string): (r: seq<Product>)
    ensures IsSubsequence(r, items)
    ensures forall k :: 0 <= k < |r| ==> r[k].id != id
    ensures forall k :: 0 <= k < |items| && items[k].id != id ==> items[k] in r
  {
    FilterIsSubsequence(items, IdIsNot(id));
    FilterMembers(items, IdIsNot(id));
    Filter(items, IdIsNot(id))
  }

  /** Every copy of an entry with another id is kept, and no entry with the id is. */
  lemma RemoveByIdCounts(items: seq<Product>, id: string)
    ensures forall p :: multiset(RemoveById(items, id))[p] == if p.id != id then multiset(items)[p] else 0
  {
    FilterMultiset(items, IdIsNot(id));
  }

  /** `[row, ...items.filter((p) => p.id !== row.id)]`: the returned row first, and no other entry
      with its id. */
  function PutFirst(items: seq<Product>, row: Product): (r: seq<Product>)
    ensures |r| >= 1 && r[0] == row
    ensures forall k :: 1 <= k < |r| ==> r[k].id != row.id
    ensures IsSubsequence(r[1..], items)
    ensures forall k :: 0 <= k < |items| && items[k].id != row.id ==> items[k] in r[1..]
  {
    var rest := RemoveById(items, row.id);
    assert ([row] + rest)[1..] == rest;
    [row] + rest
  }

  lemma {:induction false} FilterKeepsUniqueIds(items: seq<Product>, p: Product -> bool)
    requires UniqueIds(items)
    ensures UniqueIds(Filter(items, p))
    decreases |items|
  {
    if items != [] {
      FilterKeepsUniqueIds(items[1..], p);
      var rest := Filter(items[1..], p);
      FilterMembers(items[1..], p);
      forall k | 0 <= k < |rest| ensures rest[k].id != items[0].id {
        assert rest[k] in items[1..];
        var j :| 0 <= j < |items[1..]| && items[1..][j] == rest[k];
        assert items[j + 1] == rest[k];
      }
    }
  }

  /** Replacing an entry keeps the ids of the list unique. */
  lemma PutFirstKeepsUniqueIds(items: seq<Product>, row: Product)
    requires UniqueIds(items)
    ensures UniqueIds(PutFirst(items, row))
  {
    FilterKeepsUniqueIds(items, IdIsNot(row.id));
  }

  /** Removing an id that no entry has changes nothing; removing twice is removing once. */
  lemma RemoveByIdAbsent(items: seq<Product>, id: string)
    requires forall k :: 0 <= k < |items| ==> items[k].id != id
    ensures RemoveById(items, id) == items
  {
    FilterAll(items, IdIsNot(id));
  }

  lemma RemoveByIdIdempotent(items: seq<Product>, id: string)
    ensures RemoveById(RemoveById(items, id), id) == RemoveById(items, id)
  {
    RemoveByIdAbsent(RemoveById(items, id), id);
  }

  /** `items.find((p) => p.id === id)`: the first entry with that id, if any. */
  function FindById(items: seq<Product>, id: string): (r: Option<Product>)
    ensures r.None? <==> forall k :: 0 <= k < |items| ==> items[k].id != id
    ensures r.Some? ==>
      (exists k :: 0 <= k < |items| && items[k] == r.value && r.value.id == id &&
        forall j :: 0 <= j < k ==> items[j].id != id)
    decreases |items|
  {
    if items == [] then None
    else if items[0].id == id then Some(items[0])
    else
      var r := FindById(items[1..], id);
      assert forall k :: 1 <= k < |items| ==> items[k] == items[1..][k - 1];
      r
  }

  /** `items.find((p) => p.id === id)?.files || []`. */
  function CurrentFiles(items: seq<Product>, id: string): seq<FileRef>
  {
    match FindById(items, id)
    case None => []
    case Some(p) => p.files.GetOr([])
  }

  // ---------------------------------------------------------------- uploads

  /** `${productId}/${Date.now()}_${f.name}`. */
  function FilePath(productId: string, now: nat, name: string): string
  {
    productId + "/" + NatToString(now) + "_" + name
  }

  /** The reference the k-th upload stores: the file's name and its storage path. */
  function UploadRef(names: seq<string>, productId: string, now: nat -> nat, k: nat): (f: FileRef)
    requires k < |names|
    ensures f.name == names[k] && productId + "/" <= f.path
  {
    FileRef(names[k], FilePath(productId, now(k), names[k]))
  }

  /** The files of `names[..n]` that storage accepted, in order; `now(k)` is the clock reading when
      the k-th upload starts and `stored(k)` says whether storage accepted it. */
  function UploadedRefs(names: seq<string>, productId: string, now: nat -> nat, stored: nat -> bool, n: nat)
    : (r: seq<FileRef>)
    requires n <= |names|
    ensures |r| <= n
    ensures forall k :: 0 <= k < |r| ==> productId + "/" <= r[k].path
    decreases n
  {
    if n == 0 then []
    else
      var r := UploadedRefs(names, productId, now, stored, n - 1);
      if stored(n - 1) then r + [UploadRef(names, productId, now, n - 1)] else r
  }

  /** When storage accepts every file, every file is uploaded, in order. */
  lemma {:induction false} UploadedRefsAllStored(names: seq<string>, productId: string, now: nat -> nat,
                                                 stored: nat -> bool, n: nat)
    requires n <= |names|
    requires forall k :: 0 <= k < n ==> stored(k)
    ensures |UploadedRefs(names, productId, now, stored, n)| == n
    ensures forall k :: 0 <= k < n ==> UploadedRefs(names, productId, now, stored, n)[k].name == names[k]
    decreases n
  {
    if n > 0 {
      UploadedRefsAllStored(names, productId, now, stored, n - 1);
    }
  }

  /** How many of the first `n` uploads storage accepted. */
  function NumStored(stored: nat -> bool, n: nat): nat
    decreases n
  {
    if n == 0 then 0 else NumStored(stored, n - 1) + (if stored(n - 1) then 1 else 0)
  }

  /** A rejected file leaves no reference, and the reference of an accepted file comes right
      after those of the files accepted before it. */
  lemma {:induction false} UploadedRefsPositions(names: seq<string>, productId: string, now: nat -> nat,
                                                 stored: nat -> bool, n: nat)
    requires n <= |names|
    ensures |UploadedRefs(names, productId, now, stored, n)| == NumStored(stored, n)
    ensures forall k :: 0 <= k < n && stored(k) ==>
      NumStored(stored, k) < |UploadedRefs(names, productId, now, stored, n)| &&
      UploadedRefs(names, productId, now, stored, n)[NumStored(stored, k)] ==
        UploadRef(names, productId, now, k)
    decreases n
  {
    if n > 0 {
      var r := UploadedRefs(names, productId, now, stored, n - 1);
      var rn := UploadedRefs(names, productId, now, stored, n);
      UploadedRefsPositions(names, productId, now, stored, n - 1);
      assert |r| <= |rn| && forall i :: 0 <= i < |r| ==> rn[i] == r[i];
      forall k | 0 <= k < n && stored(k)
        ensures NumStored(stored, k) < |rn| && rn[NumStored(stored, k)] == UploadRef(names, productId, now, k)
      {
        if k == n - 1 {
          assert rn == r + [UploadRef(names, productId, now, n - 1)];
        }
      }
    }
  }

  // ---------------------------------------------------------------- the form

  /** The form's state variables (`editingId`, `kind`, ..., `pendingFiles`, `msg`). */
  datatype Form = Form(
    editingId: Option<string>,
    kind: string,
    status: string,
    name: string,
    sku: string,
    version: string,
    desc: string,
    weight: real,
    dimensions: string,
    colors: seq<string>,
    folder: string,
    tagsText: string,
    author: string,
    baseOnId: string,
    threeD: PrintParams,
    ordered: SupplyParams,
    margin: real,
    resellerDiscount: real,
    retailPrice: real,
    resellerPrice: real,
    pendingFiles: seq<string>,
    msg: string)

  const NameRequired: string := "Le nom est requis."
  const ClonedMessage: string :=
    "Pré-rempli depuis le produit sélectionné. Pense à ajuster le code/nom si besoin."

  function ErrorMessage(e: string): string
  {
    "Erreur: " + e
  }

  /** The initial state and `resetForm()`: a new 3D product, version "V1", no message. */
  function EmptyForm(): (f: Form)
    ensures f.editingId.None? && f.kind == "3d" && f.version == "V1" && f.msg == ""
    ensures FormCost(f) == 9.0
  {
    Form(None, "3d", "Prototype", "", "", "V1", "", 0.0, "", ["Noir"], "", "", "", "",
         Empty3D(), EmptyOrdered(), DefaultMargin, DefaultResellerDiscount, 0.0, 0.0, [], "")
  }

  /** `cost`: the formula the product kind selects. */
  function FormCost(f: Form): (c: real)
    ensures c >= 0.0
    ensures f.kind == "3d" ==> c == Cost3D(f.threeD)
    ensures f.kind != "3d" ==> c == CostOrdered(f.ordered)
  {
    if f.kind == "3d" then Cost3D(f.threeD) else CostOrdered(f.ordered)
  }

  /** Every field `startEdit` and `cloneFromProduct` both set holds the stored product's value,
      or the page's default where the column is absent (see `LoadedStatus`, `LoadedSpecs`,
      `LoadedPricing`, `LoadedPrint` and `LoadedSupply`). */
  predicate LoadedFrom(g: Form, src: Product)
  {
    LoadedColumns(g, src) && LoadedSpecsFields(g, src) && LoadedPricingFields(g, src) &&
    LoadedParams(g, src)
  }

  /** The text columns: kind, status, name, code, description, folder and tags. */
  predicate LoadedColumns(g: Form, src: Product)
  {
    g.kind == src.kind && g.name == src.name && g.sku == src.code &&
    g.status == LoadedStatus(src) && g.desc == src.description && g.folder == src.folder &&
    g.tagsText == JoinTags(src.tags)
  }

  predicate LoadedSpecsFields(g: Form, src: Product)
  {
    var specs := LoadedSpecs(src);
    g.weight == specs.weight && g.dimensions == specs.dimensions && g.colors == specs.colors
  }

  predicate LoadedPricingFields(g: Form, src: Product)
  {
    var pricing := LoadedPricing(src);
    g.margin == pricing.margin && g.resellerDiscount == pricing.resellerDiscount &&
    g.retailPrice == pricing.retail && g.resellerPrice == pricing.reseller
  }

  /** The parameters of the stored kind, or its defaults; the other kind's are reset. */
  predicate LoadedParams(g: Form, src: Product)
  {
    g.threeD == LoadedPrint(src) && g.ordered == LoadedSupply(src)
  }

  /** The fields `startEdit` and `cloneFromProduct` both load from a stored product, with the
      defaults they apply to absent columns; the other fields are left as they were. */
  function LoadProduct(f: Form, src: Product): (g: Form)
    ensures LoadedFrom(g, src)
    ensures g.editingId == f.editingId && g.version == f.version && g.author == f.author
    ensures g.baseOnId == f.baseOnId && g.pendingFiles == f.pendingFiles && g.msg == f.msg
  {
    var specs := LoadedSpecs(src);
    var pricing := LoadedPricing(src);
    var g := Form(f.editingId, src.kind, LoadedStatus(src),
                  src.name, src.code, f.version, src.description,
                  specs.weight, specs.dimensions, specs.colors, src.folder, JoinTags(src.tags),
                  f.author, f.baseOnId, LoadedPrint(src), LoadedSupply(src),
                  pricing.margin, pricing.resellerDiscount, pricing.retail, pricing.reseller,
                  f.pendingFiles, f.msg);
    g
  }

  /** The status a stored product loads: "Prototype" when it has none. */
  function LoadedStatus(src: Product): string
  {
    if src.status == "" then "Prototype" else src.status
  }

  /** The 3D parameters a stored product loads into the form. */
  function LoadedPrint(src: Product): PrintParams
  {
    if src.kind == "3d" && src.build.Printed? then src.build.printParams else Empty3D()
  }

  /** The supplier parameters a stored product loads into the form. */
  function LoadedSupply(src: Product): SupplyParams
  {
    if src.kind == "3d" then EmptyOrdered()
    else if src.build.Supplied? then src.build.supplyParams
    else MissingSupply()
  }

  /** The specs a stored product loads, or the defaults when it has none. */
  function LoadedSpecs(src: Product): Specs
  {
    src.specs.GetOr(Specs(0.0, "", ["Noir"]))
  }

  /** The pricing a stored product loads, or the defaults when it has none. */
  function LoadedPricing(src: Product): Pricing
  {
    src.pricing.GetOr(Pricing(0.0, DefaultMargin, 0.0, 0.0, DefaultResellerDiscount))
  }

  /** `startEdit(it)`: the form edits the stored product under its id. */
  function EditDraft(f: Form, it: Product): (g: Form)
    ensures g.editingId == Some(it.id)
    ensures LoadedFrom(g, it)
    ensures g.version == (if it.version.Some? && it.version.value != "" then it.version.value else "V1")
    ensures g.msg == "" && g.baseOnId == ""
    ensures g.author == f.author && g.pendingFiles == f.pendingFiles
  {
    var version := match it.version
      case Some(v) => if v == "" then "V1" else v
      case None => "V1";
    var g := LoadProduct(f, it);
    var h := g.(editingId := Some(it.id), version := version, baseOnId := "", msg := "");
    h
  }

  /** `cloneFromProduct` once the source is found: a new entry (no id being edited) pre-filled
      from the source, with the next version of its code (above every same-code version in the
      list), no pending files and the author left to be chosen again. */
  function CloneDraft(items: seq<Product>, f: Form, src: Product): (g: Form)
    ensures g.editingId.None? && LoadedFrom(g, src)
    ensures g.version == NextVersionForCode(items, src.code)
    ensures IsVersionLabel(g.version)
    ensures forall k :: 0 <= k < |items| && HasVersionFor(items[k], src.code) ==>
      ParseVersion(items[k].version.value) < ParseVersion(g.version)
    ensures g.pendingFiles == [] && g.author == "" && g.msg == ClonedMessage
    ensures g.baseOnId == f.baseOnId
  {
    var next := NextVersionForCode(items, src.code);
    var g := LoadProduct(f, src);
    var h := g.(
      editingId := None,
      version := if next == "" then "V1" else next,
      author := "",
      pendingFiles := [],
      msg := ClonedMessage);
    h
  }

  /** The `record` `saveItem` writes: the code is the SKU or else the automatic code of the day,
      the version defaults to "V1", the tags are parsed from the tag field, the cost is the one the
      kind selects, and the build holds the parameters of that kind. */
  function BuildRecord(f: Form, today: Date): (r: Product)
    ensures r.code == (if f.sku != "" then f.sku else AutoCode(f.name, f.kind, today))
    ensures r.code != ""
    ensures f.sku == "" ==> Split(r.code, '_')[0] == KindTag(f.kind)
    ensures r.version == Some(if f.version != "" then f.version else "V1")
    ensures r.kind == f.kind && r.name == f.name && r.description == f.desc
    ensures r.status == f.status && r.folder == f.folder && r.author == f.author
    ensures r.tags == ToTagsArray(f.tagsText)
    ensures forall k :: 0 <= k < |r.tags| ==> WellFormedTag(r.tags[k])
    ensures r.specs == Some(Specs(f.weight, f.dimensions, f.colors))
    ensures r.pricing.Some? && r.pricing.value.cost == FormCost(f) && r.pricing.value.cost >= 0.0
    ensures r.pricing.value.margin == f.margin && r.pricing.value.retail == f.retailPrice
    ensures r.pricing.value.reseller == f.resellerPrice
    ensures r.pricing.value.resellerDiscount == f.resellerDiscount
    ensures r.build == if f.kind == "3d" then Printed(f.threeD) else Supplied(f.ordered)
    ensures r.files.None? && r.votes.None? && r.reminderDate.None? && !r.reminderDone
  {
    var code := if f.sku != "" then f.sku else AutoCode(f.name, f.kind, today);
    Product(
      "",
      f.kind,
      f.name,
      code,
      Some(if f.version != "" then f.version else "V1"),
      f.desc,
      f.status,
      f.folder,
      ToTagsArray(f.tagsText),
      f.author,
      Some(Specs(f.weight, f.dimensions, f.colors)),
      Some(Pricing(FormCost(f), f.margin, f.retailPrice, f.resellerPrice, f.resellerDiscount)),
      if f.kind == "3d" then Printed(f.threeD) else Supplied(f.ordered),
      None,
      None,
      None,
      false)
  }

  /** Saving a clone files a new version of the same product family: same code (when the source
      had one), a version above every same-code version in the list, the same kind and tags. */
  lemma SavedCloneIsNextVersion(items: seq<Product>, f: Form, src: Product, today: Date)
    requires src.code != ""
    requires forall k :: 0 <= k < |src.tags| ==> WellFormedTag(src.tags[k])
    ensures var r := BuildRecord(CloneDraft(items, f, src), today);
      r.code == src.code && r.kind == src.kind && r.tags == src.tags &&
      forall k :: 0 <= k < |items| && HasVersionFor(items[k], src.code) ==>
        ParseVersion(items[k].version.value) < ParseVersion(r.version.value)
  {
    TagsRoundTrip(src.tags);
  }

  // ---------------------------------------------------------------- page state

  /** A reply of the backend to a write: the stored row, or the error message. */
  datatype Reply = Stored(row: Product) | Rejected(message: string)

  class ProductsPage {
    /** Whether a backend client could be created; without one the page works on its local list. */
    const configured: bool
    var items: seq<Product>
    var filterKind: string
    var q: string
    var form: Form

    constructor(configured: bool)
      ensures this.configured == configured
      ensures items == [] && filterKind == "all" && q == "" && form == EmptyForm()
    {
      this.configured := configured;
      items := [];
      filterKind := "all";
      q := "";
      form := EmptyForm();
    }

    /** `filtered`, over the current list, kind filter and query. */
    function Filtered(): (r: seq<Product>)
      reads this
      ensures IsSubsequence(r, items)
    {
      FilterItems(items, filterKind, q)
    }

    /** `existingTags`: every tag of every item exactly once, in ascending order. */
    method ExistingTags() returns (tags: seq<string>)
      ensures StrictlySorted(tags)
      ensures forall t :: t in tags <==> exists k :: 0 <= k < |items| && t in items[k].tags
    {
      tags := [];
      var i := 0;
      while i < |items|
        invariant 0 <= i <= |items|
        invariant StrictlySorted(tags)
        invariant forall t :: t in tags <==> exists k :: 0 <= k < i && t in items[k].tags
      {
        var ts := items[i].tags;
        var j := 0;
        while j < |ts|
          invariant 0 <= j <= |ts|
          invariant StrictlySorted(tags)
          invariant forall t :: t in tags <==> (exists k :: 0 <= k < i && t in items[k].tags) || t in ts[..j]
        {
          assert ts[..j + 1] == ts[..j] + [ts[j]];
          tags := InsertDistinct(tags, ts[j]);
          j := j + 1;
        }
        assert ts[..j] == ts;
        i := i + 1;
      }
    }

    /** `addExistingTag(tag)`. */
    method AddExistingTag(tag: string)
      modifies this`form
      ensures form == old(form).(tagsText := AddTagText(old(form).tagsText, tag))
    {
      var current := ToTagsArray(form.tagsText);
      if tag !in current {
        form := form.(tagsText := JoinTags(current + [tag]));
      }
    }

    /** `startEdit(it)`. */
    method StartEdit(it: Product)
      modifies this`form
      ensures form == EditDraft(old(form), it)
    {
      form := EditDraft(form, it);
    }

    /** `cloneFromProduct(productId)`: an unknown id changes nothing. */
    method CloneFromProduct(productId: string)
      modifies this`form
      ensures FindById(items, productId).None? ==> form == old(form)
      ensures FindById(items, productId).Some? ==>
        form == CloneDraft(items, old(form), FindById(items, productId).value)
    {
      var src := FindById(items, productId);
      if src.Some? {
        form := CloneDraft(items, form, src.value);
      }
    }

    /** `uploadFiles(productId)`: the pending files storage accepted, with their paths. */
    method UploadFiles(productId: string, now: nat -> nat, stored: nat -> bool)
      returns (uploaded: seq<FileRef>)
      ensures uploaded ==
        if configured then UploadedRefs(form.pendingFiles, productId, now, stored, |form.pendingFiles|)
        else []
    {
      if !configured || |form.pendingFiles| == 0 {
        return [];
      }
      uploaded := [];
      var i := 0;
      while i < |form.pendingFiles|
        invariant 0 <= i <= |form.pendingFiles|
        invariant uploaded == UploadedRefs(form.pendingFiles, productId, now, stored, i)
      {
        var f := form.pendingFiles[i];
        var path := FilePath(productId, now(i), f);
        if stored(i) {
          uploaded := uploaded + [FileRef(f, path)];
        }
        i := i + 1;
      }
    }

    /** `saveItem()`. `localId` stands for `crypto.randomUUID()`, `today` for the current day,
        `now` and `stored` for the clock and storage during the uploads, and the three replies
        for the backend's answers to the insert, the file patch and the update. `sent` lists the
        records written to the backend, in order. The success messages are replaced by the
        empty message of `resetForm()` in the same update, so a successful save ends with "". */
    method SaveItem(today: Date, localId: string, now: nat -> nat, stored: nat -> bool,
                    insertReply: Reply, patchReply: Reply, updateReply: Reply)
      returns (sent: seq<Product>)
      modifies this`items, this`form
      ensures old(form).name == "" ==>
        items == old(items) && form == old(form).(msg := NameRequired) && sent == []
      ensures old(form).name != "" && !configured ==>
        items == [BuildRecord(old(form), today).(id := localId)] + old(items) &&
        form == EmptyForm() && sent == []
      ensures old(form).name != "" && configured && old(form).editingId.None? ==>
        var record := BuildRecord(old(form), today);
        (insertReply.Rejected? ==>
          items == old(items) && form == old(form).(msg := ErrorMessage(insertReply.message)) &&
          sent == [record]) &&
        (insertReply.Stored? ==>
          var data := insertReply.row;
          var files := UploadedRefs(old(form).pendingFiles, data.id, now, stored, |old(form).pendingFiles|);
          form == EmptyForm() &&
          (files == [] ==> items == [data] + old(items) && sent == [record]) &&
          (files != [] ==>
            sent == [record, record.(files := Some(files))] &&
            items == (if patchReply.Stored? then [patchReply.row] + RemoveById(old(items), data.id)
                      else old(items))))
      ensures old(form).name != "" && configured && old(form).editingId.Some? ==>
        var eid := old(form).editingId.value;
        var record := BuildRecord(old(form), today);
        var files := UploadedRefs(old(form).pendingFiles, eid, now, stored, |old(form).pendingFiles|);
        sent == [if files == [] then record else record.(files := Some(CurrentFiles(old(items), eid) + files))] &&
        (updateReply.Rejected? ==>
          items == old(items) && form == old(form).(msg := ErrorMessage(updateReply.message))) &&
        (updateReply.Stored? ==> items == PutFirst(old(items), updateReply.row) && form == EmptyForm())
    {
      sent := [];
      if form.name == "" {
        form := form.(msg := NameRequired);
        return;
      }
      var record := BuildRecord(form, today);
      if !configured {
        items := [record.(id := localId)] + items;
        form := EmptyForm();
        return;
      }
      if form.editingId.None? {
        sent := SaveInsert(record, now, stored, insertReply, patchReply);
      } else {
        sent := SaveUpdate(form.editingId.value, record, now, stored, updateReply);
      }
    }

    /** The insert branch of `saveItem()`: a rejected insert keeps the list and shows the error;
        a stored one goes first, replaced by the patched row when files were uploaded and the
        patch succeeded, and left out when the patch failed. */
    method SaveInsert(record: Product, now: nat -> nat, stored: nat -> bool,
                      insertReply: Reply, patchReply: Reply)
      returns (sent: seq<Product>)
      requires configured
      modifies this`items, this`form
      ensures insertReply.Rejected? ==>
        items == old(items) && form == old(form).(msg := ErrorMessage(insertReply.message)) &&
        sent == [record]
      ensures insertReply.Stored? ==>
        var data := insertReply.row;
        var files := UploadedRefs(old(form).pendingFiles, data.id, now, stored, |old(form).pendingFiles|);
        form == EmptyForm() &&
        (files == [] ==> items == [data] + old(items) && sent == [record]) &&
        (files != [] ==>
          sent == [record, record.(files := Some(files))] &&
          items == (if patchReply.Stored? then [patchReply.row] + RemoveById(old(items), data.id)
                    else old(items)))
    {
      sent := [record];
      match insertReply {
        case Rejected(e) =>
          form := form.(msg := ErrorMessage(e));
        case Stored(data) =>
          var files := UploadFiles(data.id, now, stored);
          if |files| > 0 {
            sent := sent + [record.(files := Some(files))];
            if patchReply.Stored? {
              items := [patchReply.row] + RemoveById(items, data.id);
            }
          } else {
            items := [data] + items;
          }
          form := EmptyForm();
      }
    }

    /** The update branch of `saveItem()` for the product `eid`: uploaded files are appended to
        the ones the listed product already has; a stored reply goes first in the list. */
    method SaveUpdate(eid: string, record: Product, now: nat -> nat, stored: nat -> bool,
                      updateReply: Reply)
      returns (sent: seq<Product>)
      requires configured
      modifies this`items, this`form
      ensures
        var files := UploadedRefs(old(form).pendingFiles, eid, now, stored, |old(form).pendingFiles|);
        sent == [if files == [] then record
                 else record.(files := Some(CurrentFiles(old(items), eid) + files))]
      ensures updateReply.Rejected? ==>
        items == old(items) && form == old(form).(msg := ErrorMessage(updateReply.message))
      ensures updateReply.Stored? ==>
        items == PutFirst(old(items), updateReply.row) && form == EmptyForm()
    {
      var files := UploadFiles(eid, now, stored);
      var patch := record;
      if |files| > 0 {
        patch := patch.(files := Some(CurrentFiles(items, eid) + files));
      }
      sent := [patch];
      match updateReply {
        case Rejected(e) =>
          form := form.(msg := ErrorMessage(e));
        case Stored(data) =>
          items := PutFirst(items, data);
          form := EmptyForm();
      }
    }

    /** `removeItem(id)`; `deleted` is whether the backend accepted the delete. */
    method RemoveItem(id: string, deleted: bool)
      modifies this`items
      ensures items == if !configured || deleted then RemoveById(old(items), id) else old(items)
    {
      if !configured || deleted {
        items := RemoveById(items, id);
      }
    }
  }
}
