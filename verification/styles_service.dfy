/**
 * The styles service over an in-memory `styles` table. How the store answers
 * a query (rows, no data, or an error) and the clock read by an update are
 * parameters.
 */
module StylesService {
  import opened Wrappers
  import opened Text
  import opened Records
  import opened Tables
  import opened StyleOrder
  import Seqs

  /** How the store answers a select: with the rows, with null data and no error, or with an error. */
  datatype QueryReply = Served | NullData | Refused(cause: Exception)

  /** The columns a caller supplies for a new style; the store assigns key and timestamps. */
  datatype NewStyle = NewStyle(
    category: string,
    name: string,
    value: string,
    description: Option<string>,
    cssClass: Option<string>)

  /** A partial update: None leaves a column as it is. */
  datatype StylePatch = StylePatch(
    category: Option<string>,
    name: Option<string>,
    value: Option<string>,
    description: Option<string>,
    cssClass: Option<string>)

  /** The error each operation throws: a fixed context, a colon, then the store's message. */
  function Wrapped(context: string, cause: Exception): Exception {
    ErrorInstance(context + cause.message)
  }

  /** The row-selection of `.eq('category', c)`. */
  function InCategory(c: string): Style -> bool {
    (s: Style) => s.category == c
  }

  /** Some style of `s` has category `c`. */
  predicate HasCategory(s: seq<Style>, c: string) {
    exists i :: 0 <= i < |s| && s[i].category == c
  }

  /** `getAllStyles`: every row, ordered by category and then by name. */
  function GetAllStyles(table: seq<Style>, reply: QueryReply): (r: Result<seq<Style>, Exception>)
    ensures reply.Refused? ==> r == Failure(ErrorInstance("Failed to fetch styles: " + reply.cause.message))
    ensures reply.NullData? ==> r == Success([])
    ensures reply.Served? ==> r.Success? && SortedBy(ByCategoryThenName, r.value) && multiset(r.value) == multiset(table)
  {
    match reply
    case Refused(cause) => Failure(Wrapped("Failed to fetch styles: ", cause))
    case NullData => Success([])
    case Served => Success(Sort(ByCategoryThenName, table))
  }

  /** `getStylesByCategory`: exactly the rows of `category`, ordered by name. */
  function GetStylesByCategory(table: seq<Style>, category: string, reply: QueryReply): (r: Result<seq<Style>, Exception>)
    ensures reply.Refused? ==> r == Failure(ErrorInstance("Failed to fetch styles by category: " + reply.cause.message))
    ensures reply.NullData? ==> r == Success([])
    ensures reply.Served? ==> r.Success? && SortedBy(ByName, r.value)
    ensures reply.Served? ==> forall s :: multiset(r.value)[s] == if s.category == category then multiset(table)[s] else 0
  {
    match reply
    case Refused(cause) => Failure(Wrapped("Failed to fetch styles by category: ", cause))
    case NullData => Success([])
    case Served =>
      var rows := Seqs.Filter(InCategory(category), table);
      var sorted := Sort(ByName, rows);
      assert forall s :: multiset(sorted)[s] == if s.category == category then multiset(table)[s] else 0 by {
        forall s
          ensures multiset(sorted)[s] == if s.category == category then multiset(table)[s] else 0
        {
          Seqs.FilterCounts(InCategory(category), table, s);
        }
      }
      Success(sorted)
  }

  /** `createStyle`: inserts one row with the key and timestamps the store assigns. */
  function CreateStyle(table: seq<Style>, style: NewStyle, stamp: RowStamp, fault: Option<Exception>): (r: Response<Style, Style>)
    requires !HasKey(table, StyleKey, stamp.id)
    ensures fault.Some? ==> r == Response(table, Failure(ErrorInstance("Failed to create style: " + fault.value.message)))
    ensures fault.None? ==> r.result.Success? && r.table == table + [r.result.value]
    ensures r.result.Success? ==>
      var s := r.result.value;
      && s.id == stamp.id && s.createdAt == stamp.at && s.updatedAt == stamp.at
      && NewStyle(s.category, s.name, s.value, s.description, s.cssClass) == style
  {
    if fault.Some? then Response(table, Failure(Wrapped("Failed to create style: ", fault.value)))
    else
      var s := Style(stamp.id, style.category, style.name, style.value, style.description, style.cssClass, stamp.at, stamp.at);
      Response(table + [s], Success(s))
  }

  /** Inserting a row under a fresh key keeps the table's keys distinct. */
  lemma CreateStyleKeepsKeysUnique(table: seq<Style>, style: NewStyle, stamp: RowStamp, fault: Option<Exception>)
    requires UniqueKeys(table, StyleKey)
    requires !HasKey(table, StyleKey, stamp.id)
    ensures UniqueKeys(CreateStyle(table, style, stamp, fault).table, StyleKey)
  {
    var r := CreateStyle(table, style, stamp, fault);
    if r.result.Success? {
      forall i, j | 0 <= i < j < |r.table|
        ensures r.table[i].id != r.table[j].id
      {
        if j == |table| {
          assert r.table[i] == table[i];
        }
      }
    }
  }

  /** A created style is listed under its own category. */
  lemma CreatedStyleListed(table: seq<Style>, style: NewStyle, stamp: RowStamp)
    requires !HasKey(table, StyleKey, stamp.id)
    ensures var r := CreateStyle(table, style, stamp, None);
      var listed := GetStylesByCategory(r.table, style.category, Served);
      listed.Success? && r.result.value in listed.value
  {
    var r := CreateStyle(table, style, stamp, None);
    var s := r.result.value;
    var listed := GetStylesByCategory(r.table, style.category, Served);
    assert r.table[|table|] == s;
    assert multiset(listed.value)[s] == multiset(r.table)[s];
  }

  /** The row after a partial update: supplied columns replaced, `updated_at` stamped. */
  function Patched(row: Style, patch: StylePatch, now: Timestamp): Style {
    row.(category := patch.category.GetOr(row.category),
         name := patch.name.GetOr(row.name),
         value := patch.value.GetOr(row.value),
         description := if patch.description.Some? then patch.description else row.description,
         cssClass := if patch.cssClass.Some? then patch.cssClass else row.cssClass,
         updatedAt := now)
  }

  /** `updateStyle`: merges `patch` into the row with key `id` and stamps `updated_at` with `now`. */
  function UpdateStyle(table: seq<Style>, id: string, patch: StylePatch, now: Timestamp, fault: Option<Exception>): (r: Response<Style, Style>)
    requires UniqueKeys(table, StyleKey)
    ensures r.result.Failure? ==> r.table == table
    ensures fault.Some? ==> r.result == Failure(ErrorInstance("Failed to update style: " + fault.value.message))
    ensures fault.None? && !HasKey(table, StyleKey, id) ==>
      r.result == Failure(ErrorInstance("Failed to update style: " + NoSingleRow.message))
    ensures r.result.Success? <==> fault.None? && HasKey(table, StyleKey, id)
    ensures |r.table| == |table|
    ensures forall i :: 0 <= i < |table| ==> r.table[i].id == table[i].id
    ensures UniqueKeys(r.table, StyleKey)
    ensures forall i :: 0 <= i < |table| && table[i].id != id ==> r.table[i] == table[i]
    ensures r.result.Success? ==> forall i :: 0 <= i < |table| && table[i].id == id ==>
      var before, after := table[i], r.table[i];
      && r.result.value == after
      && after.id == before.id && after.createdAt == before.createdAt && after.updatedAt == now
      && after.category == (if patch.category.Some? then patch.category.value else before.category)
      && after.name == (if patch.name.Some? then patch.name.value else before.name)
      && after.value == (if patch.value.Some? then patch.value.value else before.value)
      && (patch.description.Some? ==> after.description == patch.description)
      && (patch.description.None? ==> after.description == before.description)
      && (patch.cssClass.Some? ==> after.cssClass == patch.cssClass)
      && (patch.cssClass.None? ==> after.cssClass == before.cssClass)
  {
    if fault.Some? then Response(table, Failure(Wrapped("Failed to update style: ", fault.value)))
    else
      match IndexOfKey(table, StyleKey, id)
      case None => Response(table, Failure(Wrapped("Failed to update style: ", NoSingleRow)))
      case Some(j) =>
        var rows := UpdateWhere(table, StyleKey, id, (s: Style) => Patched(s, patch, now));
        OnlyRowWithKey(table, StyleKey, j);
        Response(rows, Success(rows[j]))
  }

  /** Applying the same partial update twice, at the same instant, is applying it once. */
  lemma UpdateStyleIdempotent(table: seq<Style>, id: string, patch: StylePatch, now: Timestamp)
    requires UniqueKeys(table, StyleKey)
    requires HasKey(table, StyleKey, id)
    ensures var once := UpdateStyle(table, id, patch, now, None).table;
      UpdateStyle(once, id, patch, now, None).table == once
  {
    var once := UpdateStyle(table, id, patch, now, None).table;
    var twice := UpdateStyle(once, id, patch, now, None).table;
    assert HasKey(once, StyleKey, id) by {
      var j :| 0 <= j < |table| && table[j].id == id;
      assert once[j].id == id;
    }
    forall i | 0 <= i < |table|
      ensures twice[i] == once[i]
    {
      if table[i].id == id {
        assert once[i] == Patched(table[i], patch, now);
        assert twice[i] == Patched(once[i], patch, now);
      }
    }
  }

  /** `deleteStyle`: removes the row with key `id` and keeps the rest in order. */
  function DeleteStyle(table: seq<Style>, id: string, fault: Option<Exception>): (r: Response<Style, ()>)
    requires UniqueKeys(table, StyleKey)
    ensures fault.Some? ==> r == Response(table, Failure(ErrorInstance("Failed to delete style: " + fault.value.message)))
    ensures fault.None? ==> r.result.Success?
    ensures fault.None? ==> forall s :: s in r.table <==> s in table && s.id != id
    ensures fault.None? ==> Seqs.IsSubsequence(r.table, table)
    ensures fault.None? && !HasKey(table, StyleKey, id) ==> r.table == table
    ensures fault.None? ==> forall i :: 0 <= i < |table| && table[i].id == id ==> r.table == table[..i] + table[i + 1..]
    ensures fault.None? ==> UniqueKeys(r.table, StyleKey)
  {
    if fault.Some? then Response(table, Failure(Wrapped("Failed to delete style: ", fault.value)))
    else
      var keep := KeyOtherThan(StyleKey, id);
      Seqs.FilterIsSubsequence(keep, table);
      match IndexOfKey(table, StyleKey, id)
      case None =>
        Seqs.FilterAll(keep, table);
        Response(Seqs.Filter(keep, table), Success(()))
      case Some(j) =>
        OnlyRowWithKey(table, StyleKey, j);
        RemoveKeepsKeysUnique(table, StyleKey, j);
        Seqs.FilterDropsOne(keep, table, j);
        Response(Seqs.Filter(keep, table), Success(()))
  }

  /** After a delete, listing every style shows no row with that key. */
  lemma DeletedStyleNotListed(table: seq<Style>, id: string)
    requires UniqueKeys(table, StyleKey)
    ensures var after := DeleteStyle(table, id, None).table;
      forall s :: s in GetAllStyles(after, Served).value ==> s.id != id
  {
    var after := DeleteStyle(table, id, None).table;
    var listed := GetAllStyles(after, Served).value;
    forall s | s in listed
      ensures s.id != id
    {
      assert s in multiset(listed);
    }
  }

  /** Every element of `s` is at most every later one. */
  predicate NonDecreasing(s: seq<string>) {
    forall i, j :: 0 <= i < j < |s| ==> NotAfter(s[i], s[j])
  }

  /** Every element of `s` is strictly below every later one. */
  predicate StrictlyAscending(s: seq<string>) {
    forall i, j :: 0 <= i < j < |s| ==> Below(s[i], s[j])
  }

  /** The position of the first occurrence of `x` in `s`. */
  function FirstIndex(s: seq<string>, x: string): (i: nat)
    requires x in s
    ensures i < |s| && s[i] == x
    ensures forall k :: 0 <= k < i ==> s[k] != x
  {
    if s[0] == x then 0 else 1 + FirstIndex(s[1..], x)
  }

  /** Dropping the last element does not move any first occurrence in what remains. */
  lemma FirstIndexInit(s: seq<string>, y: string)
    requires |s| > 0 && y in s[..|s| - 1]
    ensures FirstIndex(s, y) == FirstIndex(s[..|s| - 1], y)
  {
    var init := s[..|s| - 1];
    var b := FirstIndex(init, y);
    assert s[b] == y;
    assert forall k :: 0 <= k < |init| ==> init[k] == s[k];
  }

  /** A value absent from all but the last position first occurs at the last position. */
  lemma FirstIndexLast(s: seq<string>)
    requires |s| > 0 && s[|s| - 1] !in s[..|s| - 1]
    ensures FirstIndex(s, s[|s| - 1]) == |s| - 1
  {
    assert forall k :: 0 <= k < |s| - 1 ==> s[k] == s[..|s| - 1][k];
  }

  /** `[...new Set(s)]`: each distinct value once, in order of first occurrence. */
  function Dedupe(s: seq<string>): (r: seq<string>)
    ensures forall x :: x in r <==> x in s
    ensures forall i, j :: 0 <= i < j < |r| ==> r[i] != r[j]
    ensures NonDecreasing(s) ==> StrictlyAscending(r)
  {
    if |s| == 0 then []
    else
      var init := s[..|s| - 1];
      var x := s[|s| - 1];
      var p := Dedupe(init);
      assert s == init + [x];
      if x in p then
        p
      else
        var r := p + [x];
        assert NonDecreasing(s) ==> StrictlyAscending(r) by {
          if NonDecreasing(s) {
            forall i, j | 0 <= i < j < |r|
              ensures Below(r[i], r[j])
            {
              if j == |p| {
                assert r[i] == p[i] && p[i] in init;
                var k :| 0 <= k < |init| && init[k] == r[i];
                assert s[k] == r[i];
              }
            }
          }
        }
        r
  }

  /** The distinct values come out in the order of their first occurrences. */
  lemma {:induction false} DedupeKeepsFirstOccurrenceOrder(s: seq<string>)
    ensures forall i, j :: 0 <= i < j < |Dedupe(s)| ==> FirstIndex(s, Dedupe(s)[i]) < FirstIndex(s, Dedupe(s)[j])
  {
    if |s| > 0 {
      var init := s[..|s| - 1];
      var x := s[|s| - 1];
      DedupeKeepsFirstOccurrenceOrder(init);
      var p := Dedupe(init);
      var r := Dedupe(s);
      assert s == init + [x];
      if x !in p {
        FirstIndexLast(s);
      }
      forall i, j | 0 <= i < j < |r|
        ensures FirstIndex(s, r[i]) < FirstIndex(s, r[j])
      {
        FirstIndexInit(s, r[i]);
        if j < |p| {
          FirstIndexInit(s, r[j]);
        }
      }
    }
  }

  /** The store's answer to `select('category').order('category')`. */
  function CategoryColumn(table: seq<Style>): (c: seq<string>)
    ensures NonDecreasing(c)
    ensures forall x :: x in c <==> HasCategory(table, x)
  {
    var sorted := Sort(ByCategoryThenName, table);
    var c := seq(|sorted|, i requires 0 <= i < |sorted| => sorted[i].category);
    assert forall x :: x in c ==> HasCategory(table, x) by {
      forall x | x in c
        ensures HasCategory(table, x)
      {
        var i :| 0 <= i < |c| && c[i] == x;
        assert sorted[i] in multiset(table);
        var k :| 0 <= k < |table| && table[k] == sorted[i];
      }
    }
    assert forall x :: HasCategory(table, x) ==> x in c by {
      forall x | HasCategory(table, x)
        ensures x in c
      {
        var k :| 0 <= k < |table| && table[k].category == x;
        assert table[k] in multiset(sorted);
        var i :| 0 <= i < |sorted| && sorted[i] == table[k];
        assert c[i] == x;
      }
    }
    c
  }

  /** `getCategories`: each category of the table exactly once, in ascending order. */
  function GetCategories(table: seq<Style>, reply: QueryReply): (r: Result<seq<string>, Exception>)
    ensures reply.Refused? ==> r == Failure(ErrorInstance("Failed to fetch categories: " + reply.cause.message))
    ensures reply.NullData? ==> r == Success([])
    ensures reply.Served? ==> r.Success?
    ensures reply.Served? ==> forall x :: x in r.value <==> HasCategory(table, x)
    ensures reply.Served? ==> forall i, j :: 0 <= i < j < |r.value| ==> r.value[i] != r.value[j]
    ensures reply.Served? ==> StrictlyAscending(r.value)
  {
    match reply
    case Refused(cause) => Failure(Wrapped("Failed to fetch categories: ", cause))
    case NullData => Success(Dedupe([]))
    case Served => Success(Dedupe(CategoryColumn(table)))
  }
}
