/** Catalogs to snapshots and back: hash maps are listed in name order, so equal catalogs give equal files, and
    indexes and vector columns are rebuilt from the rows. */
module SnapshotCatalog {
  import opened Wrappers
  import opened Bytes
  import opened Values
  import opened SnapshotCodec
  import opened Ranking
  import SqlEval
  import SqlAggregates
  import SnapshotWriter
  import SnapshotLoader
  import Conflicts
  import StoredTable
  import Dense

  datatype TableData = TableData(columns: seq<Column>, indexes: map<string, nat>, rows: seq<Row>)

  datatype CatalogData = CatalogData(tables: map<string, TableData>, durableSequence: u64)

  /* ----- Name order ----- */

  predicate TextLess(a: string, b: string) {
    SqlEval.CompareTexts(a, b) < 0
  }

  function Anything(): string -> bool {
    (s: string) => true
  }

  function TextOrder(): (string, string) -> bool {
    (a: string, b: string) => TextLess(a, b)
  }

  lemma {:induction false} EqualTexts(a: string, b: string)
    requires SqlEval.CompareTexts(a, b) == 0
    ensures a == b
  {
    if a != [] && b != [] {
      EqualTexts(a[1..], b[1..]);
      assert a == [a[0]] + a[1..] && b == [b[0]] + b[1..];
    }
  }

  lemma TextOrderIsWeak()
    ensures WeakOrder(TextOrder(), Anything())
    ensures forall a, b: string | SameRank(TextOrder(), a, b) :: a == b
  {
    hide SqlEval.CompareTexts;
    forall a: string, b: string, c: string
      ensures TextOrder()(a, b) ==> !TextOrder()(b, a)
      ensures TextOrder()(a, b) && !TextOrder()(c, b) ==> TextOrder()(a, c)
      ensures !TextOrder()(b, a) && TextOrder()(b, c) ==> TextOrder()(a, c)
    {
      SqlAggregates.TextsAreOrdered(a, b, c);
      SqlAggregates.TextsAreOrdered(b, c, a);
      SqlAggregates.TextsAreOrdered(c, b, a);
      SqlAggregates.TextsAreOrdered(a, c, b);
    }
    forall a: string, b: string | SameRank(TextOrder(), a, b)
      ensures a == b
    {
      SqlAggregates.TextsAreOrdered(a, b, a);
      EqualTexts(a, b);
    }
  }

  /** The names of a set, each once, in order. */
  ghost predicate Listing(names: seq<string>, s: set<string>) {
    multiset(names) == multiset(s) && Sorted(TextOrder(), names)
  }

  /** There is one listing: iteration order of the hash map does not show. */
  lemma ListingIsUnique(a: seq<string>, b: seq<string>, s: set<string>)
    requires Listing(a, s) && Listing(b, s)
    ensures a == b
  {
    hide WeakOrder, Sorted, TextLess;
    TextOrderIsWeak();
    assert AllOk(Anything(), multiset(a));
    SortedRanks(TextOrder(), Anything(), a, b);
    forall i | 0 <= i < |a|
      ensures a[i] == b[i]
    {
      assert SameRank(TextOrder(), a[i], b[i]);
    }
  }

  /** Collects the names in whatever order the map yields them, then sorts. */
  method ListNames(s: set<string>) returns (names: seq<string>)
    ensures Listing(names, s)
  {
    var found: seq<string>, todo := [], s;
    while todo != {}
      invariant todo <= s && multiset(found) + multiset(todo) == multiset(s)
      decreases |todo|
    {
      var name :| name in todo;
      found := found + [name];
      todo := todo - {name};
    }
    TextOrderIsWeak();
    SortSorts(TextOrder(), Anything(), found);
    names := Sort(TextOrder(), found);
  }

  lemma ListingNames(names: seq<string>, s: set<string>)
    requires Listing(names, s)
    ensures DistinctNames(names) && forall name :: name in names <==> name in s
  {
    hide Sorted, TextOrder;
    forall name
      ensures name in names <==> name in s
    {
      assert name in multiset(names) <==> name in multiset(s);
    }
    forall i, j | 0 <= i < j < |names|
      ensures names[i] != names[j]
    {
      TwiceInMultiset(names, i, j);
      assert multiset(s)[names[i]] <= 1;
    }
  }

  lemma TwiceInMultiset<T>(s: seq<T>, i: nat, j: nat)
    requires i < j < |s|
    ensures s[i] == s[j] ==> multiset(s)[s[i]] >= 2
  {
    assert s == s[..j] + [s[j]] + s[j + 1..];
    assert s[..j] == s[..i] + [s[i]] + s[i + 1..j];
  }

  /* ----- Catalogs and images ----- */

  ghost predicate IndexesDepict(images: seq<IndexImage>, indexes: map<string, nat>) {
    && Listing(IndexNames(images), indexes.Keys)
    && forall i | 0 <= i < |images| :: images[i].name in indexes && images[i].column == indexes[images[i].name]
  }

  ghost predicate TableDepicts(t: TableImage, tables: map<string, TableData>) {
    && t.name in tables && t.columns == tables[t.name].columns && t.rows == tables[t.name].rows
    && IndexesDepict(t.indexes, tables[t.name].indexes)
  }

  /** The image lists the catalog in name order. */
  ghost predicate Depicts(image: Image, c: CatalogData) {
    && Listing(TableNames(image.tables), c.tables.Keys)
    && image.durableSequence == c.durableSequence
    && forall i | 0 <= i < |image.tables| :: TableDepicts(image.tables[i], c.tables)
  }

  /** Equal catalogs have one image, hence byte-for-byte equal snapshots. */
  lemma SnapshotIsReproducible(a: Image, b: Image, c: CatalogData)
    requires Depicts(a, c) && Depicts(b, c)
    ensures a == b && EncodeFile(a) == EncodeFile(b)
  {
    hide EncodeFile, Listing;
    ListingIsUnique(TableNames(a.tables), TableNames(b.tables), c.tables.Keys);
    assert |a.tables| == |TableNames(a.tables)| == |b.tables|;
    forall i | 0 <= i < |a.tables|
      ensures a.tables[i] == b.tables[i]
    {
      assert TableNames(a.tables)[i] == TableNames(b.tables)[i];
      assert TableDepicts(a.tables[i], c.tables) && TableDepicts(b.tables[i], c.tables);
      IndexesAreUnique(a.tables[i].indexes, b.tables[i].indexes, c.tables[a.tables[i].name].indexes);
    }
    assert a.tables == b.tables;
  }

  lemma IndexesAreUnique(a: seq<IndexImage>, b: seq<IndexImage>, indexes: map<string, nat>)
    requires IndexesDepict(a, indexes) && IndexesDepict(b, indexes)
    ensures a == b
  {
    hide Listing;
    ListingIsUnique(IndexNames(a), IndexNames(b), indexes.Keys);
    assert |a| == |IndexNames(a)| == |b|;
    forall i | 0 <= i < |a|
      ensures a[i] == b[i]
    {
      assert IndexNames(a)[i] == IndexNames(b)[i];
    }
  }

  method DepictIndexes(indexes: map<string, nat>) returns (images: seq<IndexImage>)
    ensures IndexesDepict(images, indexes)
  {
    hide Listing;
    var names := ListNames(indexes.Keys);
    ListingNames(names, indexes.Keys);
    images := seq(|names|, i requires 0 <= i < |names| => IndexImage(names[i], indexes[names[i]]));
    assert IndexNames(images) == names;
  }

  method Depict(c: CatalogData) returns (image: Image)
    ensures Depicts(image, c)
  {
    hide Listing, IndexesDepict;
    var names := ListNames(c.tables.Keys);
    ListingNames(names, c.tables.Keys);
    var tables: seq<TableImage> := [];
    for i := 0 to |names|
      invariant |tables| == i && forall k | 0 <= k < i :: tables[k].name == names[k] && TableDepicts(tables[k], c.tables)
    {
      var data := c.tables[names[i]];
      var indexes := DepictIndexes(data.indexes);
      tables := tables + [TableImage(names[i], data.columns, indexes, data.rows)];
    }
    assert TableNames(tables) == names;
    image := Image(tables, c.durableSequence);
  }

  /** Reading an image back into maps. */
  function IndexMap(images: seq<IndexImage>): map<string, nat> {
    if images == [] then map[]
    else IndexMap(images[..|images| - 1])[images[|images| - 1].name := images[|images| - 1].column]
  }

  function TableMap(tables: seq<TableImage>): map<string, TableData> {
    if tables == [] then map[]
    else
      var t := tables[|tables| - 1];
      TableMap(tables[..|tables| - 1])[t.name := TableData(t.columns, IndexMap(t.indexes), t.rows)]
  }

  function CatalogOf(image: Image): CatalogData {
    CatalogData(TableMap(image.tables), image.durableSequence)
  }

  lemma {:induction false} IndexMapOf(images: seq<IndexImage>)
    requires DistinctNames(IndexNames(images))
    ensures forall name :: name in IndexMap(images) <==> name in IndexNames(images)
    ensures forall i | 0 <= i < |images| :: images[i].name in IndexMap(images) && IndexMap(images)[images[i].name] == images[i].column
  {
    if images != [] {
      var n := |images| - 1;
      var init := images[..n];
      assert IndexNames(images) == IndexNames(init) + [images[n].name];
      forall i, j | 0 <= i < j < |init|
        ensures IndexNames(init)[i] != IndexNames(init)[j]
      {
        assert IndexNames(images)[i] != IndexNames(images)[j];
      }
      IndexMapOf(init);
      forall i | 0 <= i < n
        ensures images[i].name != images[n].name
      {
        assert IndexNames(images)[i] != IndexNames(images)[n];
      }
    }
  }

  lemma DistinctInit(names: seq<string>, name: string)
    requires DistinctNames(names + [name])
    ensures DistinctNames(names) && name !in names
  {
    var all := names + [name];
    assert all[|names|] == name;
    assert forall i | 0 <= i < |names| :: all[i] == names[i];
  }

  ghost predicate Maps(m: map<string, TableData>, tables: seq<TableImage>) {
    && (forall name :: name in m <==> name in TableNames(tables))
    && forall i | 0 <= i < |tables| ::
         && tables[i].name in m
         && m[tables[i].name] == TableData(tables[i].columns, IndexMap(tables[i].indexes), tables[i].rows)
  }

  lemma {:induction false} TableMapOf(tables: seq<TableImage>)
    requires DistinctNames(TableNames(tables))
    ensures Maps(TableMap(tables), tables)
  {
    hide IndexMap;
    if tables != [] {
      var n := |tables| - 1;
      var init, t := tables[..n], tables[n];
      assert TableNames(tables) == TableNames(init) + [t.name];
      DistinctInit(TableNames(init), t.name);
      TableMapOf(init);
      MapsNext(TableMap(init), init, t);
      assert tables == init + [t];
    }
  }

  lemma MapsNext(m: map<string, TableData>, init: seq<TableImage>, t: TableImage)
    requires Maps(m, init) && t.name !in TableNames(init)
    ensures Maps(m[t.name := TableData(t.columns, IndexMap(t.indexes), t.rows)], init + [t])
  {
    hide IndexMap;
    assert TableNames(init + [t]) == TableNames(init) + [t.name];
    forall i | 0 <= i < |init|
      ensures init[i].name != t.name
    {
      assert TableNames(init)[i] == init[i].name;
    }
  }

  lemma IndexesReadBack(images: seq<IndexImage>, indexes: map<string, nat>)
    requires IndexesDepict(images, indexes)
    ensures IndexMap(images) == indexes
  {
    hide IndexMap;
    ListingNames(IndexNames(images), indexes.Keys);
    hide Listing;
    IndexMapOf(images);
    forall name | name in indexes
      ensures name in IndexMap(images) && IndexMap(images)[name] == indexes[name]
    {
      var i :| 0 <= i < |images| && IndexNames(images)[i] == name;
    }
    assert forall name :: name in IndexMap(images) <==> name in indexes;
  }

  /** An image of a catalog reads back as that catalog. */
  lemma ImageReadsBack(image: Image, c: CatalogData)
    requires Depicts(image, c)
    ensures CatalogOf(image) == c
  {
    hide TableMap, IndexesDepict;
    ListingNames(TableNames(image.tables), c.tables.Keys);
    hide Listing;
    TableMapOf(image.tables);
    forall name | name in c.tables
      ensures name in TableMap(image.tables) && TableMap(image.tables)[name] == c.tables[name]
    {
      var i :| 0 <= i < |image.tables| && TableNames(image.tables)[i] == name;
      assert TableDepicts(image.tables[i], c.tables);
      IndexesReadBack(image.tables[i].indexes, c.tables[name].indexes);
    }
    assert forall name :: name in TableMap(image.tables) <==> name in c.tables;
    assert TableMap(image.tables) == c.tables;
  }

  /** A catalog's columns have valid types and its indexes lie on columns. */
  ghost predicate CatalogValid(c: CatalogData) {
    forall name | name in c.tables ::
      && (forall i | 0 <= i < |c.tables[name].columns| :: TypeOk(c.tables[name].columns[i].dataType))
      && forall index | index in c.tables[name].indexes :: c.tables[name].indexes[index] < |c.tables[name].columns|
  }

  lemma ValidTypes(image: Image, c: CatalogData)
    requires CatalogValid(c) && Depicts(image, c)
    ensures forall i | 0 <= i < |image.tables| :: SnapshotWriter.TypesValid(image.tables[i])
  {
    hide Listing, TypeOk;
    forall i | 0 <= i < |image.tables|
      ensures SnapshotWriter.TypesValid(image.tables[i])
    {
      assert TableDepicts(image.tables[i], c.tables);
    }
  }

  method Save(c: CatalogData, device: nat -> nat) returns (r: Result<seq<byte>>)
    requires CatalogValid(c)
    ensures exists image :: Depicts(image, c) && Saved(r, image)
  {
    hide Writable, EncodeFile, Depicts;
    var image := Depict(c);
    ValidTypes(image, c);
    r := SnapshotWriter.WriteCatalog(image, device);
    assert Saved(r, image);
  }

  /** Saving yields the encoding of the image, or fails because the format cannot hold it. */
  ghost predicate Saved(r: Result<seq<byte>>, image: Image) {
    if Writable(image) then r == Success(EncodeFile(image)) else r.Failure?
  }

  method Open(file: seq<byte>, device: nat -> nat) returns (r: Result<CatalogData>)
    ensures match LoadFile(file)
      case Failure(e) => r == Failure(e)
      case Success(image) => r == Success(CatalogOf(image))
  {
    hide LoadFile;
    var image := SnapshotLoader.Load(file, device);
    if image.Failure? {
      return Failure(image.error);
    }
    return Success(CatalogOf(image.value));
  }

  /** Opening what was saved gives back the tables, the index definitions and the durable sequence, exactly when
      the reader's demands on names, indexes and unique keys hold. */
  lemma SavedCatalogOpens(c: CatalogData, image: Image)
    requires Depicts(image, c) && Writable(image)
    ensures LoadFile(EncodeFile(image)) == if Loadable(image) then Success(image) else Failure(CorruptSnapshot)
    ensures CatalogOf(image) == c
  {
    hide EncodeFile, LoadFile, Loadable, Writable, Depicts;
    SnapshotRoundTrip(image);
    ImageReadsBack(image, c);
  }

  /* ----- Rebuilding a table ----- */

  function EmptyIndexes(images: seq<IndexImage>): map<string, StoredTable.HashIndex> {
    if images == [] then map[]
    else
      var i := images[|images| - 1];
      EmptyIndexes(images[..|images| - 1])[i.name := StoredTable.HashIndex(i.column, map[])]
  }

  lemma {:induction false} EmptyIndexesTarget(images: seq<IndexImage>, columns: seq<Column>)
    requires forall i | 0 <= i < |images| ::
               images[i].column < |columns| && !columns[images[i].column].dataType.Vector?
    ensures forall name | name in EmptyIndexes(images) ::
              && EmptyIndexes(images)[name].column < |columns|
              && !columns[EmptyIndexes(images)[name].column].dataType.Vector?
  {
    if images != [] {
      EmptyIndexesTarget(images[..|images| - 1], columns);
    }
  }

  /** The table of a loaded image: its rows, and indexes and unique-key maps rebuilt to match them. */
  method RestoreTable(t: TableImage) returns (table: StoredTable.Table)
    requires TableLoadable(t) && |t.rows| <= Conflicts.MAX_TABLE_ROWS
    requires forall i | 0 <= i < |t.rows| :: RowFits(t.columns, t.rows[i])
    ensures fresh(table) && table.Valid() && table.columns == t.columns && table.rows == t.rows
    ensures StoredTable.SameIndexes(table.indexes, EmptyIndexes(t.indexes))
  {
    hide RowFits, Conflicts.UniqueCheck, Conflicts.ValidateRow;
    table := new StoredTable.Table(t.columns);
    table.rows := t.rows;
    table.indexes := EmptyIndexes(t.indexes);
    EmptyIndexesTarget(t.indexes, t.columns);
    table.RebuildIndexes();
  }

  /** Unpacking the vectors of a column in batches of any size gives the contents that one pass over all rows
      gives. */
  method UnpackVectors(column: nat, dimensions: nat, norm: Vector -> f64, rows: array<Row>, batchRows: nat)
    returns (dense: Dense.DenseVectorColumn)
    requires dimensions > 0 && batchRows > 0 && Dense.VectorRows(rows[..], column, dimensions)
    modifies rows
    ensures fresh(dense) && dense.Valid() && dense.dimensions == dimensions && dense.norm == norm
    ensures dense.contents == Dense.Cells(old(rows[..]), column) && rows[..] == old(rows[..])
  {
    hide Dense.VectorRows, Dense.Tiled, Dense.Indexed;
    dense := new Dense.DenseVectorColumn(dimensions, norm);
    ghost var all := rows[..];
    var first := 0;
    assert Dense.Cells(all[..0], column) == [];
    while first < rows.Length
      invariant first <= rows.Length && fresh(dense) && dense.Valid()
      invariant dense.dimensions == dimensions && dense.norm == norm
      invariant dense.contents == Dense.Cells(all[..first], column) && rows[..] == all
      decreases rows.Length - first
    {
      var end := if rows.Length - first > batchRows then first + batchRows else rows.Length;
      PartOfVectors(all, column, dimensions, first, end);
      assert rows[first..end] == all[first..end];
      CountOfContents(dense, all, column, first);
      dense.AppendRows(column, first, rows, first, end);
      CellsSplit(all, column, first, end);
      first := end;
    }
    assert all[..first] == all;
  }

  lemma PartOfVectors(rows: seq<Row>, column: nat, dimensions: nat, lo: nat, hi: nat)
    requires lo <= hi <= |rows| && Dense.VectorRows(rows, column, dimensions)
    ensures Dense.VectorRows(rows[lo..hi], column, dimensions)
  {
  }

  lemma CountOfContents(dense: Dense.DenseVectorColumn, all: seq<Row>, column: nat, first: nat)
    requires dense.Valid() && first <= |all| && dense.contents == Dense.Cells(all[..first], column)
    ensures dense.rowCount == first
  {
  }

  lemma CellsSplit(all: seq<Row>, column: nat, lo: nat, hi: nat)
    requires lo <= hi <= |all|
    ensures Dense.Cells(all[..hi], column) == Dense.Cells(all[..lo], column) + Dense.Cells(all[lo..hi], column)
  {
    assert all[..hi] == all[..lo] + all[lo..hi];
  }
}
