/** Listings and the pure sequence operations that the admin screen uses to
    build its new listing array: delete-by-id (`filter`), first match by id
    (`findIndex`), upsert (copy and assign one index, or spread-prepend), the
    presence test (`some`) and the one-field update of the edit buffer. */
module Listings {

  /** One marketplace listing. `id` is the row key of the admin table. */
  datatype Product = Product(
    id: int,
    name: string,
    price: int,
    category: string,
    image: string,
    description: string)

  /** The placeholder image every new listing starts with. */
  const PlaceholderImage: string := "https://picsum.photos/id/10/600/400"

  // ---------------------------------------------------------------------------
  // Fields of a listing and the form's one-field edits
  // ---------------------------------------------------------------------------

  /** The keys of a listing. */
  datatype Field = IdField | NameField | PriceField | CategoryField | ImageField | DescriptionField

  /** The value stored under a key: a number or a text. */
  datatype FieldValue = Number(n: int) | Text(t: string)

  /** One form edit: a key together with a value of that key's kind. */
  datatype Input =
    | SetId(newId: int)
    | SetName(newName: string)
    | SetPrice(newPrice: int)
    | SetCategory(newCategory: string)
    | SetImage(newImage: string)
    | SetDescription(newDescription: string)

  /** The value a listing stores under key `f`. */
  function Get(p: Product, f: Field): FieldValue
  {
    match f
    case IdField => Number(p.id)
    case NameField => Text(p.name)
    case PriceField => Number(p.price)
    case CategoryField => Text(p.category)
    case ImageField => Text(p.image)
    case DescriptionField => Text(p.description)
  }

  /** The key an edit writes. */
  function KeyOf(u: Input): Field
  {
    match u
    case SetId(_) => IdField
    case SetName(_) => NameField
    case SetPrice(_) => PriceField
    case SetCategory(_) => CategoryField
    case SetImage(_) => ImageField
    case SetDescription(_) => DescriptionField
  }

  /** The value an edit writes. */
  function ValueOf(u: Input): FieldValue
  {
    match u
    case SetId(v) => Number(v)
    case SetName(v) => Text(v)
    case SetPrice(v) => Number(v)
    case SetCategory(v) => Text(v)
    case SetImage(v) => Text(v)
    case SetDescription(v) => Text(v)
  }

  /** A listing is determined by the values under its six keys. */
  lemma SameFieldsSameProduct(a: Product, b: Product)
    requires forall f :: Get(a, f) == Get(b, f)
    ensures a == b
  {
    assert Get(a, IdField) == Get(b, IdField);
    assert Get(a, NameField) == Get(b, NameField);
    assert Get(a, PriceField) == Get(b, PriceField);
    assert Get(a, CategoryField) == Get(b, CategoryField);
    assert Get(a, ImageField) == Get(b, ImageField);
    assert Get(a, DescriptionField) == Get(b, DescriptionField);
  }

  /** A one-field edit of the buffer: a copy of `p` in which the edited key
      holds the new value and every other key keeps its old one. */
  function ApplyInput(p: Product, u: Input): (r: Product)
    ensures Get(r, KeyOf(u)) == ValueOf(u)
    ensures forall f :: f != KeyOf(u) ==> Get(r, f) == Get(p, f)
  {
    match u
    case SetId(v) => p.(id := v)
    case SetName(v) => p.(name := v)
    case SetPrice(v) => p.(price := v)
    case SetCategory(v) => p.(category := v)
    case SetImage(v) => p.(image := v)
    case SetDescription(v) => p.(description := v)
  }

  /** The only listing that agrees with `p` everywhere except that key `KeyOf(u)`
      holds `ValueOf(u)` is `ApplyInput(p, u)`. */
  lemma ApplyInputIsUnique(p: Product, u: Input, q: Product)
    requires Get(q, KeyOf(u)) == ValueOf(u)
    requires forall f :: f != KeyOf(u) ==> Get(q, f) == Get(p, f)
    ensures q == ApplyInput(p, u)
  {
    var r := ApplyInput(p, u);
    forall f ensures Get(q, f) == Get(r, f) {
    }
    SameFieldsSameProduct(q, r);
  }

  // ---------------------------------------------------------------------------
  // Searching by id
  // ---------------------------------------------------------------------------

  /** The presence test used by the modal title: some listing of `s` carries `id`. */
  predicate HasId(s: seq<Product>, id: int)
  {
    exists k :: 0 <= k < |s| && s[k].id == id
  }

  /** `k` is the first position of `s` whose listing carries `id`. */
  predicate FirstWithId(s: seq<Product>, id: int, k: int)
  {
    0 <= k < |s| && s[k].id == id && forall j :: 0 <= j < k ==> s[j].id != id
  }

  /** Ids are pairwise distinct, as React's row keys expect. */
  predicate DistinctIds(s: seq<Product>)
  {
    forall i, j :: 0 <= i < j < |s| ==> s[i].id != s[j].id
  }

  /** The search a save starts with: the first position whose listing carries
      `id`, or -1 when there is none. */
  function FindIndex(s: seq<Product>, id: int): (r: int)
    ensures -1 <= r < |s|
    ensures r >= 0 <==> HasId(s, id)
    ensures r >= 0 ==> FirstWithId(s, id, r)
  {
    if s == [] then -1
    else if s[0].id == id then 0
    else
      var k := FindIndex(s[1..], id);
      if k < 0 then -1 else k + 1
  }

  // ---------------------------------------------------------------------------
  // Delete: keep the listings whose id differs
  // ---------------------------------------------------------------------------

  /** The listings of `s` whose id differs from `id`, in their original order. */
  function FilterOut(s: seq<Product>, id: int): (r: seq<Product>)
    ensures |r| <= |s|
    ensures forall x :: multiset(r)[x] == if x.id == id then 0 else multiset(s)[x]
    ensures forall x :: x in r <==> x in s && x.id != id
    ensures !HasId(r, id)
    ensures !HasId(s, id) ==> r == s
  {
    if s == [] then []
    else
      assert s == [s[0]] + s[1..];
      var rest := FilterOut(s[1..], id);
      if s[0].id == id then rest else [s[0]] + rest
  }

  /** Filtering works piecewise: it keeps the relative order of what it keeps. */
  lemma {:induction false} FilterOutAppend(a: seq<Product>, b: seq<Product>, id: int)
    ensures FilterOut(a + b, id) == FilterOut(a, id) + FilterOut(b, id)
  {
    if a == [] {
      assert a + b == b;
    } else {
      assert (a + b)[0] == a[0] && (a + b)[1..] == a[1..] + b;
      FilterOutAppend(a[1..], b, id);
    }
  }

  /** Deleting the same id twice is the same as deleting it once. */
  lemma FilterOutIdempotent(s: seq<Product>, id: int)
    ensures FilterOut(FilterOut(s, id), id) == FilterOut(s, id)
  {
  }

  /** A delete keeps ids pairwise distinct. */
  lemma {:induction false} FilterOutKeepsDistinct(s: seq<Product>, id: int)
    requires DistinctIds(s)
    ensures DistinctIds(FilterOut(s, id))
  {
    if s != [] {
      var t := s[1..];
      assert DistinctIds(t) by {
        forall i, j | 0 <= i < j < |t| ensures t[i].id != t[j].id {
          assert s[i + 1] == t[i] && s[j + 1] == t[j];
        }
      }
      FilterOutKeepsDistinct(t, id);
      if s[0].id != id {
        var rest := FilterOut(t, id);
        assert !HasId(t, s[0].id) by {
          forall m | 0 <= m < |t| ensures t[m].id != s[0].id {
            assert s[m + 1] == t[m];
          }
        }
        FilterOutNoNewIds(t, id, s[0].id);
        assert FilterOut(s, id) == [s[0]] + rest;
      }
    }
  }

  /** Filtering only removes ids, it never brings one in. */
  lemma FilterOutNoNewIds(s: seq<Product>, id: int, i: int)
    requires !HasId(s, i)
    ensures !HasId(FilterOut(s, id), i)
  {
  }

  // ---------------------------------------------------------------------------
  // Save: update the first listing with the buffer's id, else prepend
  // ---------------------------------------------------------------------------

  /** The listing array after saving `p`. */
  function Upsert(s: seq<Product>, p: Product): (r: seq<Product>)
    ensures forall k :: FirstWithId(s, p.id, k) ==>
      |r| == |s| && r[k] == p && forall j :: 0 <= j < |s| && j != k ==> r[j] == s[j]
    ensures !HasId(s, p.id) ==> |r| == |s| + 1 && r[0] == p && r[1..] == s
  {
    var k := FindIndex(s, p.id);
    if k >= 0 then s[k := p] else [p] + s
  }

  /** A save keeps ids pairwise distinct. */
  lemma UpsertKeepsDistinct(s: seq<Product>, p: Product)
    requires DistinctIds(s)
    ensures DistinctIds(Upsert(s, p))
  {
  }

  /** The ids present after a save are exactly the old ids plus the buffer's. */
  lemma UpsertIds(s: seq<Product>, p: Product, i: int)
    ensures HasId(Upsert(s, p), i) <==> HasId(s, i) || i == p.id
  {
  }

  /** Opening an existing listing for edit and saving it unchanged leaves the
      array as it was, when ids are distinct. */
  lemma SaveUnchangedEdit(s: seq<Product>, i: int)
    requires DistinctIds(s) && 0 <= i < |s|
    ensures Upsert(s, s[i]) == s
  {
  }

  /** With duplicate ids the same round trip can change the array: saving the
      second of two listings with one id overwrites the first. */
  lemma SaveDuplicateEdit()
    ensures var a := Product(1, "A", 0, "", "", "");
            var b := Product(1, "B", 0, "", "", "");
            Upsert([a, b], b) == [b, b]
  {
  }

  // ---------------------------------------------------------------------------
  // The modal title
  // ---------------------------------------------------------------------------

  /** The title's decision rule: the buffer is an edit when its id is truthy
      (nonzero) and some listing already carries it. A zero id never counts
      as an edit. */
  predicate IsEditMode(b: Product, s: seq<Product>)
  {
    b.id != 0 && HasId(s, b.id)
  }

  /** For a nonzero id the title tells what a save will do: the edit title
      exactly when the save replaces in place, the add title exactly when it
      puts the buffer at the front. */
  lemma TitleMatchesSave(s: seq<Product>, b: Product)
    requires b.id != 0
    ensures IsEditMode(b, s) <==> |Upsert(s, b)| == |s|
    ensures !IsEditMode(b, s) <==> Upsert(s, b) == [b] + s
  {
  }

  /** For id 0 the title and the save disagree: a listing with id 0 is
      present, the title shows "add", and the save still replaces in place. */
  lemma ZeroIdTitleMismatch(s: seq<Product>, b: Product)
    requires b.id == 0 && HasId(s, 0)
    ensures !IsEditMode(b, s)
    ensures |Upsert(s, b)| == |s|
  {
  }

}
