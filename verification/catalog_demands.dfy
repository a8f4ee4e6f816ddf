/** What the snapshot reader demands, said of the catalog instead of the file: a caller can check it before saving. */
module CatalogDemands {
  import opened Values
  import opened SnapshotCodec
  import opened SnapshotCatalog
  import Conflicts

  /** Names, a column at least, indexes on scalar columns, valid rows and no repeated unique key. */
  ghost predicate TableSound(name: string, t: TableData) {
    && name != "" && t.columns != []
    && NonemptyNames(ColumnNames(t.columns)) && DistinctNames(ColumnNames(t.columns))
    && (forall index | index in t.indexes :: IndexSound(index, t))
    && (forall i | 0 <= i < |t.rows| :: |t.rows[i]| == |t.columns| && Conflicts.ValidateRow(t.columns, t.rows[i]).Success?)
    && Conflicts.UniqueCheck(t.columns, t.rows, 0).Success?
  }

  ghost predicate IndexSound(index: string, t: TableData)
    requires index in t.indexes
  {
    index != "" && t.indexes[index] < |t.columns| && !t.columns[t.indexes[index]].dataType.Vector?
  }

  ghost predicate KeysApart(tables: map<string, TableData>) {
    forall a, b | a in tables && b in tables && a != b :: tables[a].indexes.Keys !! tables[b].indexes.Keys
  }

  /** Every table is sound, and no two tables have an index of the same name. */
  ghost predicate CatalogLoadable(tables: map<string, TableData>) {
    && (forall name | name in tables :: TableSound(name, tables[name]))
    && KeysApart(tables)
  }

  lemma IndexesSound(images: seq<IndexImage>, t: TableData)
    requires IndexesDepict(images, t.indexes)
    ensures (NonemptyNames(IndexNames(images))
             && forall i | 0 <= i < |images| ::
                  images[i].column < |t.columns| && !t.columns[images[i].column].dataType.Vector?)
            <==> forall index | index in t.indexes :: IndexSound(index, t)
  {
    ListingNames(IndexNames(images), t.indexes.Keys);
    hide Listing;
    var names := IndexNames(images);
    if forall index | index in t.indexes :: IndexSound(index, t) {
      forall i | 0 <= i < |images|
        ensures names[i] != "" && images[i].column < |t.columns| && !t.columns[images[i].column].dataType.Vector?
      {
        assert names[i] == images[i].name && IndexSound(images[i].name, t);
      }
    }
    if NonemptyNames(names)
       && forall i | 0 <= i < |images| :: images[i].column < |t.columns| && !t.columns[images[i].column].dataType.Vector? {
      forall index | index in t.indexes
        ensures IndexSound(index, t)
      {
        assert index in names;
        var i :| 0 <= i < |names| && names[i] == index;
        assert images[i].name == index;
      }
    }
  }

  lemma TableMeans(t: TableImage, tables: map<string, TableData>)
    requires TableDepicts(t, tables)
    ensures TableLoadable(t) <==> TableSound(t.name, tables[t.name])
  {
    hide Conflicts.UniqueCheck, Conflicts.ValidateRow, NonemptyNames, DistinctNames, IndexesDepict, IndexSound;
    IndexesSound(t.indexes, tables[t.name]);
  }

  /* ----- Index names across tables ----- */

  ghost predicate Apart(a: seq<string>, b: seq<string>) {
    forall name | name in a :: name !in b
  }

  lemma DistinctConcat(a: seq<string>, b: seq<string>)
    ensures DistinctNames(a + b) <==> DistinctNames(a) && DistinctNames(b) && Apart(a, b)
  {
    var all := a + b;
    assert forall i | 0 <= i < |a| :: all[i] == a[i];
    assert forall i | 0 <= i < |b| :: all[|a| + i] == b[i];
    if DistinctNames(all) {
      forall i, j | 0 <= i < j < |b|
        ensures b[i] != b[j]
      {
        assert all[|a| + i] != all[|a| + j];
      }
      forall i, j | 0 <= i < |a| && 0 <= j < |b|
        ensures a[i] != b[j]
      {
        assert all[i] != all[|a| + j];
      }
    }
    if DistinctNames(a) && DistinctNames(b) && Apart(a, b) {
      forall i, j | 0 <= i < j < |all|
        ensures all[i] != all[j]
      {
        if i < |a| && |a| <= j {
          assert a[i] in a && b[j - |a|] in b;
        }
      }
    }
  }

  lemma {:induction false} ApartFromAll(tables: seq<TableImage>, names: seq<string>)
    ensures Apart(AllIndexNames(tables), names) <==> forall i | 0 <= i < |tables| :: Apart(IndexNames(tables[i].indexes), names)
  {
    if tables != [] {
      var init, last := tables[..|tables| - 1], tables[|tables| - 1];
      ApartFromAll(init, names);
      assert forall i | 0 <= i < |init| :: tables[i] == init[i];
      assert AllIndexNames(tables) == AllIndexNames(init) + IndexNames(last.indexes);
    }
  }

  ghost predicate AllApart(tables: seq<TableImage>) {
    forall i, j | 0 <= i < j < |tables| :: Apart(IndexNames(tables[i].indexes), IndexNames(tables[j].indexes))
  }

  lemma {:induction false} DistinctAll(tables: seq<TableImage>)
    requires forall i | 0 <= i < |tables| :: DistinctNames(IndexNames(tables[i].indexes))
    ensures DistinctNames(AllIndexNames(tables)) <==> AllApart(tables)
  {
    hide Apart, DistinctNames;
    if tables == [] {
      DistinctConcat([], []);
      assert AllIndexNames(tables) == [] + [];
      NoNames();
    } else {
      var n := |tables| - 1;
      var init, last := tables[..n], tables[n];
      DistinctAll(init);
      DistinctConcat(AllIndexNames(init), IndexNames(last.indexes));
      ApartFromAll(init, IndexNames(last.indexes));
      forall i, j | 0 <= i < j < |tables|
        ensures j < n ==> init[i] == tables[i] && init[j] == tables[j]
      {
      }
      ApartSnoc(init, last);
      assert tables == init + [last];
    }
  }

  lemma NoNames()
    ensures DistinctNames([])
  {
  }

  lemma ApartSnoc(init: seq<TableImage>, last: TableImage)
    ensures AllApart(init + [last])
            <==> AllApart(init) && forall i | 0 <= i < |init| :: Apart(IndexNames(init[i].indexes), IndexNames(last.indexes))
  {
    hide Apart;
    var tables := init + [last];
    assert tables[|init|] == last && forall i | 0 <= i < |init| :: tables[i] == init[i];
    if AllApart(tables) {
      forall i, j | 0 <= i < j < |init|
        ensures Apart(IndexNames(init[i].indexes), IndexNames(init[j].indexes))
      {
        assert Apart(IndexNames(tables[i].indexes), IndexNames(tables[j].indexes));
      }
    }
  }

  /* ----- The whole catalog ----- */

  /** Index names of two tables are apart in the image exactly if they are in the catalog. */
  lemma ApartMeans(a: TableImage, b: TableImage, tables: map<string, TableData>)
    requires TableDepicts(a, tables) && TableDepicts(b, tables)
    ensures Apart(IndexNames(a.indexes), IndexNames(b.indexes)) <==> tables[a.name].indexes.Keys !! tables[b.name].indexes.Keys
  {
    ListingNames(IndexNames(a.indexes), tables[a.name].indexes.Keys);
    ListingNames(IndexNames(b.indexes), tables[b.name].indexes.Keys);
  }

  lemma KeysToImages(image: Image, c: CatalogData)
    requires Depicts(image, c) && KeysApart(c.tables)
    ensures AllApart(image.tables)
  {
    ListingNames(TableNames(image.tables), c.tables.Keys);
    hide Listing, Apart, IndexesDepict;
    var images, names := image.tables, TableNames(image.tables);
    forall i, j | 0 <= i < j < |images|
      ensures Apart(IndexNames(images[i].indexes), IndexNames(images[j].indexes))
    {
      assert names[i] != names[j];
      assert TableDepicts(images[i], c.tables) && TableDepicts(images[j], c.tables);
      ApartMeans(images[i], images[j], c.tables);
    }
  }

  lemma ImagesToKeys(image: Image, c: CatalogData, a: string, b: string)
    requires Depicts(image, c) && AllApart(image.tables) && a in c.tables && b in c.tables && a != b
    ensures c.tables[a].indexes.Keys !! c.tables[b].indexes.Keys
  {
    ListingNames(TableNames(image.tables), c.tables.Keys);
    hide Listing, Apart, IndexesDepict;
    var images, names := image.tables, TableNames(image.tables);
    assert a in names && b in names;
    var i :| 0 <= i < |names| && names[i] == a;
    var j :| 0 <= j < |names| && names[j] == b;
    assert TableDepicts(images[i], c.tables) && TableDepicts(images[j], c.tables);
    ApartMeans(images[i], images[j], c.tables);
    ApartMeans(images[j], images[i], c.tables);
  }

  lemma TablesMean(image: Image, c: CatalogData)
    requires Depicts(image, c)
    ensures (forall i | 0 <= i < |image.tables| :: TableLoadable(image.tables[i]))
            <==> forall name | name in c.tables :: TableSound(name, c.tables[name])
  {
    ListingNames(TableNames(image.tables), c.tables.Keys);
    hide Listing, TableLoadable, TableSound, IndexesDepict;
    var names := TableNames(image.tables);
    forall i | 0 <= i < |image.tables|
      ensures names[i] in c.tables && (TableLoadable(image.tables[i]) <==> TableSound(names[i], c.tables[names[i]]))
    {
      assert TableDepicts(image.tables[i], c.tables);
      TableMeans(image.tables[i], c.tables);
    }
    forall name | name in c.tables
      ensures exists i :: 0 <= i < |names| && names[i] == name
    {
      assert name in names;
    }
  }

  /** The reader takes the image of a catalog exactly when the catalog meets its demands. */
  lemma LoadableMeans(image: Image, c: CatalogData)
    requires Depicts(image, c)
    ensures Loadable(image) <==> CatalogLoadable(c.tables)
  {
    ListingNames(TableNames(image.tables), c.tables.Keys);
    forall i | 0 <= i < |image.tables|
      ensures DistinctNames(IndexNames(image.tables[i].indexes))
    {
      assert TableDepicts(image.tables[i], c.tables);
      ListingNames(IndexNames(image.tables[i].indexes), c.tables[image.tables[i].name].indexes.Keys);
    }
    hide Listing, TableLoadable, TableSound, IndexesDepict, Depicts, AllApart, DistinctNames;
    DistinctAll(image.tables);
    TablesMean(image, c);
    if KeysApart(c.tables) {
      KeysToImages(image, c);
    }
    if AllApart(image.tables) {
      forall a, b | a in c.tables && b in c.tables && a != b
        ensures c.tables[a].indexes.Keys !! c.tables[b].indexes.Keys
      {
        ImagesToKeys(image, c, a, b);
      }
    }
  }
}
