/**
 * ProductImagesAPI.swift: which images a delta sync must fetch. The image
 * records of the staged (candidate) and installed (baseline) databases are
 * compared by content hash; a candidate whose hash the baseline does not
 * have is new. The database reads are oracles: `rows` are the rows of the
 * SKU table in the database the handle has open.
 */
module ProductImages {
  import opened Wrappers
  import opened FileSystemModel
  import opened CatalogDatabase

  /** A row of the SKU table: the grid image URL and its content hash, which may be null. */
  datatype Row = Row(imageUrl: string, hash: Option<string>)

  /** An image record that takes part in the comparison. */
  datatype SkuImage = SkuImage(imageUrl: string, hash: string)

  /** The query keeps rows whose hash is not null and longer than one character. */
  predicate Qualifies(r: Row) {
    r.hash.Some? && |r.hash.value| > 1
  }

  /** The record a single row yields, if it qualifies. */
  function RowImage(r: Row): seq<SkuImage> {
    if Qualifies(r) then [SkuImage(r.imageUrl, r.hash.value)] else []
  }

  /** The records the query yields, in table order. */
  function Selected(rows: seq<Row>): seq<SkuImage> {
    if |rows| == 0 then [] else RowImage(rows[0]) + Selected(rows[1..])
  }

  /** Every selected record comes from a qualifying row, and every qualifying row is selected. */
  lemma {:induction false} SelectedExactly(rows: seq<Row>, s: SkuImage)
    ensures s in Selected(rows) <==> Row(s.imageUrl, Some(s.hash)) in rows && |s.hash| > 1
    ensures |Selected(rows)| <= |rows|
  {
    if |rows| > 0 {
      SelectedExactly(rows[1..], s);
      assert rows == [rows[0]] + rows[1..];
    }
  }

  /** `Selected` distributes over concatenation, so it keeps table order. */
  lemma {:induction false} SelectedAppend(a: seq<Row>, b: seq<Row>)
    ensures Selected(a + b) == Selected(a) + Selected(b)
  {
    if |a| == 0 {
      assert a + b == b;
    } else {
      calc {
        Selected(a + b);
        RowImage(a[0]) + Selected((a + b)[1..]);
        { assert (a + b)[1..] == a[1..] + b; }
        RowImage(a[0]) + Selected(a[1..] + b);
        { SelectedAppend(a[1..], b); }
        RowImage(a[0]) + (Selected(a[1..]) + Selected(b));
      }
    }
  }

  /** The baseline has a record with this content hash. */
  predicate HashIn(h: string, images: seq<SkuImage>) {
    exists c :: c in images && c.hash == h
  }

  /** The URLs to fetch: each candidate's URL, in candidate order, when its hash is absent from the baseline. */
  function DeltaUrls(candidates: seq<SkuImage>, baseline: seq<SkuImage>): seq<string> {
    if |candidates| == 0 then []
    else (if HashIn(candidates[0].hash, baseline) then [] else [candidates[0].imageUrl])
         + DeltaUrls(candidates[1..], baseline)
  }

  /** All candidate URLs, in order. */
  function Urls(images: seq<SkuImage>): seq<string> {
    if |images| == 0 then [] else [images[0].imageUrl] + Urls(images[1..])
  }

  /** The diff distributes over concatenation of the candidates: order is kept and nothing is merged. */
  lemma {:induction false} DeltaUrlsAppend(a: seq<SkuImage>, b: seq<SkuImage>, baseline: seq<SkuImage>)
    ensures DeltaUrls(a + b, baseline) == DeltaUrls(a, baseline) + DeltaUrls(b, baseline)
  {
    if |a| == 0 {
      assert a + b == b;
    } else {
      assert (a + b)[1..] == a[1..] + b;
      DeltaUrlsAppend(a[1..], b, baseline);
    }
  }

  /** A single candidate contributes its URL exactly when no baseline record shares its hash, whatever the URLs. */
  lemma DeltaUrlsSingle(s: SkuImage, baseline: seq<SkuImage>)
    ensures DeltaUrls([s], baseline) == if HashIn(s.hash, baseline) then [] else [s.imageUrl]
  {
  }

  /** A URL is in the result iff some candidate with that URL has a hash the baseline lacks. */
  lemma {:induction false} DeltaUrlsMembership(candidates: seq<SkuImage>, baseline: seq<SkuImage>, u: string)
    ensures u in DeltaUrls(candidates, baseline) <==>
      exists s :: s in candidates && s.imageUrl == u && !HashIn(s.hash, baseline)
  {
    if |candidates| > 0 {
      DeltaUrlsMembership(candidates[1..], baseline, u);
      assert candidates == [candidates[0]] + candidates[1..];
    }
  }

  /** The number of candidates whose hash the baseline lacks. */
  function CountNew(candidates: seq<SkuImage>, baseline: seq<SkuImage>): nat {
    if |candidates| == 0 then 0
    else (if HashIn(candidates[0].hash, baseline) then 0 else 1) + CountNew(candidates[1..], baseline)
  }

  /** One entry per new candidate, none merged: the result is as long as the count of new candidates, which is at most the number of candidates. */
  lemma {:induction false} DeltaUrlsLength(candidates: seq<SkuImage>, baseline: seq<SkuImage>)
    ensures |DeltaUrls(candidates, baseline)| == CountNew(candidates, baseline) <= |candidates|
  {
    if |candidates| > 0 {
      DeltaUrlsLength(candidates[1..], baseline);
    }
  }

  /** Against an empty baseline every candidate URL is fetched; with no candidates nothing is. */
  lemma {:induction false} DeltaUrlsEmptyBaseline(candidates: seq<SkuImage>)
    ensures DeltaUrls(candidates, []) == Urls(candidates)
    ensures DeltaUrls([], candidates) == []
  {
    if |candidates| > 0 {
      DeltaUrlsEmptyBaseline(candidates[1..]);
    }
  }

  /** `contains(where:)` on hashes. */
  method ContainsHash(images: seq<SkuImage>, h: string) returns (found: bool)
    ensures found <==> HashIn(h, images)
  {
    found := false;
    var i := 0;
    while i < |images| && !found
      invariant 0 <= i <= |images|
      invariant found <==> exists j :: 0 <= j < i && images[j].hash == h
    {
      if images[i].hash == h {
        found := true;
      }
      i := i + 1;
    }
    if !found {
      forall c | c in images
        ensures c.hash != h
      {
        var j :| 0 <= j < |images| && images[j] == c;
      }
    }
  }

  /** The loop of `getDeltaImageUrls`: each candidate whose hash is not in the baseline adds its URL. */
  method DiffByHash(tempSkuImages: seq<SkuImage>, currentSkuImages: seq<SkuImage>) returns (imageUrls: seq<string>)
    ensures imageUrls == DeltaUrls(tempSkuImages, currentSkuImages)
  {
    imageUrls := [];
    var i := 0;
    while i < |tempSkuImages|
      invariant 0 <= i <= |tempSkuImages|
      invariant imageUrls == DeltaUrls(tempSkuImages[..i], currentSkuImages)
    {
      var skuImage := tempSkuImages[i];
      var present := ContainsHash(currentSkuImages, skuImage.hash);
      DeltaUrlsAppend(tempSkuImages[..i], [skuImage], currentSkuImages);
      assert tempSkuImages[..i + 1] == tempSkuImages[..i] + [skuImage];
      if !present {
        imageUrls := imageUrls + [skuImage.imageUrl];
      }
      i := i + 1;
    }
    assert tempSkuImages[..i] == tempSkuImages;
  }

  /** The step loop of the image query: qualifying rows become records, in order. */
  method QueryImages(rows: seq<Row>) returns (skuImages: seq<SkuImage>)
    ensures skuImages == Selected(rows)
  {
    skuImages := [];
    var i := 0;
    while i < |rows|
      invariant 0 <= i <= |rows|
      invariant skuImages == Selected(rows[..i])
    {
      SelectedAppend(rows[..i], [rows[i]]);
      assert rows[..i + 1] == rows[..i] + [rows[i]];
      if rows[i].hash.Some? && |rows[i].hash.value| > 1 {
        skuImages := skuImages + [SkuImage(rows[i].imageUrl, rows[i].hash.value)];
      }
      i := i + 1;
    }
    assert rows[..i] == rows;
  }

  /**
   * `getSkuImageUrlAndHash`: opens `dbType` through the shared handle and
   * reads its image records. When the handle is not open on that database
   * the query cannot be prepared and no records are read.
   */
  method GetSkuImageUrlAndHash(db: CatalogDBManager, root: Path, dbType: DatabaseType, version: string,
                               rows: seq<Row>, openOk: bool)
    returns (skuImages: seq<SkuImage>)
    requires db.Valid() && dbType != NoDatabase
    modifies db
    ensures db.Valid()
    ensures db.currentOpenedDatabase == if old(db.currentOpenedDatabase) == dbType || openOk then dbType else NoDatabase
    ensures skuImages == if db.currentOpenedDatabase == dbType then Selected(rows) else []
  {
    var _ := db.OpenDataBase(root, dbType, Some(version), openOk);
    if db.currentOpenedDatabase == dbType {
      skuImages := QueryImages(rows);
    } else {
      skuImages := [];
    }
  }

  /**
   * `getDeltaImageUrls`: reads the staged database's records, then the
   * installed database's (which leaves the installed one open), and diffs
   * them. If the staged database cannot be opened nothing is fetched; if the
   * installed one cannot, every staged image is.
   */
  method GetDeltaImageUrls(db: CatalogDBManager, root: Path, version: string,
                           tempRows: seq<Row>, currentRows: seq<Row>, tempOpenOk: bool, normalOpenOk: bool)
    returns (imageUrls: seq<string>)
    requires db.Valid()
    modifies db
    ensures db.Valid()
    ensures db.currentOpenedDatabase == if normalOpenOk then NormalDatabase else NoDatabase
    ensures var temp := if old(db.currentOpenedDatabase) == TempDatabase || tempOpenOk then Selected(tempRows) else [];
            var current := if normalOpenOk then Selected(currentRows) else [];
            imageUrls == DeltaUrls(temp, current)
  {
    var tempSkuImages := GetSkuImageUrlAndHash(db, root, TempDatabase, version, tempRows, tempOpenOk);
    var currentSkuImages := GetSkuImageUrlAndHash(db, root, NormalDatabase, version, currentRows, normalOpenOk);
    imageUrls := DiffByHash(tempSkuImages, currentSkuImages);
  }
}
