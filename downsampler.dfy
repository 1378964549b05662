/**
 * The image-downsampling pass of app.py (`process_pdf_images`).
 *
 * PyMuPDF and PIL are replaced by the outcomes they produce for each image:
 * whether the bbox lookup raised or which rectangles it returned, whether the
 * Pixmap decode succeeded and at what size, and whether `insert_image`
 * succeeded. The document edits are the log of `insert_image` calls; the
 * final write is either a save of the edited document or a verbatim copy of
 * the input file.
 */
module Downsampler {
  import opened Wrappers
  import opened Sizing

  /** Colour modes of a decoded raster; `Gray` is PIL's mode "L". */
  datatype ColorMode = Gray | GrayAlpha | Rgb | Rgba | Cmyk | Palette | OtherMode

  /** What `page.get_image_bbox(xref)` did: raised, or returned a (possibly empty) list. */
  datatype BboxLookup = Raised | Found(rects: seq<Rect>)

  /** What `fitz.Pixmap(doc, xref)` did, with the size and mode of the decoded raster. */
  datatype PixmapOutcome = DecodeFails | Decoded(mode: ColorMode, width: nat, height: nat)

  /** One entry of `page.get_images(full=True)` with the outcomes of the library calls on it. */
  datatype ImageRecord = ImageRecord(xref: int, bbox: BboxLookup, pixmap: PixmapOutcome, insertOk: bool)

  datatype Page = Page(rect: Rect, images: seq<ImageRecord>)

  /**
   * The PIL image handed to the encoder: its mode, its decoded size, and the box
   * `thumbnail` was asked to fit it into, if it was called. The size `thumbnail`
   * produces is PIL's business and is not modelled.
   */
  datatype Raster = Raster(mode: ColorMode, width: nat, height: nat, thumbnail: Option<Box>)

  /** One call of `page.insert_image(rect, stream=...)` and whether it succeeded. */
  datatype Insertion = Insertion(page: nat, index: nat, xref: int, rect: Rect, target: Box, raster: Raster, ok: bool)

  /** The file written at the end: the edited document, or the input copied verbatim. */
  datatype Outcome = Save(outputPath: string) | Copy(inputPath: string, outputPath: string)

  /** The rectangle used for both sizing and insertion. */
  function PlacementRect(bbox: BboxLookup, pageRect: Rect): Rect
  {
    if bbox.Found? && |bbox.rects| > 0 then bbox.rects[0] else pageRect
  }

  /**
   * What processing one image does: nothing when the decode fails, otherwise one
   * `insert_image` call of a grayscale raster, thumbnailed exactly when it is
   * wider or taller than the target of the placement rectangle.
   */
  function Attempt(rec: ImageRecord, pageRect: Rect, p: nat, i: nat): (r: Option<Insertion>)
    ensures r.None? <==> rec.pixmap.DecodeFails?
    ensures r.Some? ==>
      var e := r.value;
      && e.page == p && e.index == i && e.xref == rec.xref && e.ok == rec.insertOk
      && (rec.bbox.Found? && |rec.bbox.rects| > 0 ==> e.rect == rec.bbox.rects[0])
      && (rec.bbox.Raised? || rec.bbox.rects == [] ==> e.rect == pageRect)
      && e.target == RectTarget(e.rect)
      && e.raster.mode == Gray
      && e.raster.width == rec.pixmap.width && e.raster.height == rec.pixmap.height
      && (e.raster.thumbnail.Some? <==> rec.pixmap.width > e.target.w || rec.pixmap.height > e.target.h)
      && (e.raster.thumbnail.Some? ==> e.raster.thumbnail.value == e.target)
  {
    match rec.pixmap
    case DecodeFails => None
    case Decoded(mode, w, h) =>
      var rect := PlacementRect(rec.bbox, pageRect);
      var target := if rec.bbox.Found? && |rec.bbox.rects| > 0
                    then ComputeTargetPixels(Some(rec.bbox.rects[0]), pageRect)
                    else ComputeTargetPixels(None, pageRect);
      var gray := Raster(mode, w, h, None).(mode := Gray);
      var raster := if w > target.w || h > target.h then gray.(thumbnail := Some(target)) else gray;
      Some(Insertion(p, i, rec.xref, rect, target, raster, rec.insertOk))
  }

  /** The insertions made for the first `n` images of page `p`, in order. */
  function PageAttempts(page: Page, p: nat, n: nat): seq<Insertion>
    requires n <= |page.images|
  {
    if n == 0 then []
    else
      var rest := PageAttempts(page, p, n - 1);
      match Attempt(page.images[n - 1], page.rect, p, n - 1)
      case None => rest
      case Some(e) => rest + [e]
  }

  /** The insertions made for the first `k` pages of the document, in order. */
  function DocAttempts(doc: seq<Page>, k: nat): seq<Insertion>
    requires k <= |doc|
  {
    if k == 0 then [] else DocAttempts(doc, k - 1) + PageAttempts(doc[k - 1], k - 1, |doc[k - 1].images|)
  }

  /** Every `insert_image` call `process_pdf_images` makes on `doc`, in order. */
  function Attempts(doc: seq<Page>): seq<Insertion>
  {
    DocAttempts(doc, |doc|)
  }

  /** Some call in the log succeeded. */
  predicate AnyOk(log: seq<Insertion>)
  {
    exists k :: 0 <= k < |log| && log[k].ok
  }

  /** Appending one call to the log: `modified = True` exactly when that call succeeded. */
  lemma AnyOkAppend(log: seq<Insertion>, e: Insertion)
    ensures AnyOk(log + [e]) <==> AnyOk(log) || e.ok
  {
    var log' := log + [e];
    assert log'[|log|] == e;
    if AnyOk(log) {
      var k :| 0 <= k < |log| && log[k].ok;
      assert log'[k] == log[k];
    }
    if AnyOk(log') && !e.ok {
      var k :| 0 <= k < |log'| && log'[k].ok;
      assert log[k] == log'[k];
    }
  }

  /** Reference definition: some image of the document both decodes and is inserted successfully. */
  predicate SomeInsertionSucceeds(doc: seq<Page>)
  {
    exists p, i :: 0 <= p < |doc| && 0 <= i < |doc[p].images| &&
      doc[p].images[i].pixmap.Decoded? && doc[p].images[i].insertOk
  }

  /** The file `process_pdf_images(inputPath, outputPath)` writes for `doc`. */
  function ExpectedOutcome(doc: seq<Page>, inputPath: string, outputPath: string): Outcome
  {
    if SomeInsertionSucceeds(doc) then Save(outputPath) else Copy(inputPath, outputPath)
  }

  /**
   * `process_pdf_images`: visits the pages in order and, on each page, its images
   * in order; skips images whose decode fails; inserts a grayscale, possibly
   * thumbnailed raster for every other one; saves when some insertion succeeded
   * and copies the input otherwise. It always returns true.
   */
  method ProcessPdfImages(inputPath: string, outputPath: string, doc: seq<Page>)
    returns (result: bool, log: seq<Insertion>, outcome: Outcome)
    ensures log == Attempts(doc)
    ensures outcome == ExpectedOutcome(doc, inputPath, outputPath)
    ensures outcome.Save? <==> SomeInsertionSucceeds(doc)
    ensures outcome.Copy? ==> outcome.inputPath == inputPath
    ensures outcome.outputPath == outputPath
    ensures result
  {
    var modified := false;
    log := [];
    var p := 0;
    while p < |doc|
      invariant 0 <= p <= |doc|
      invariant log == DocAttempts(doc, p)
      invariant modified <==> AnyOk(log)
    {
      var page := doc[p];
      var pageImages := page.images;
      if |pageImages| == 0 {
        p := p + 1;
        continue;
      }
      var i := 0;
      while i < |pageImages|
        invariant 0 <= i <= |pageImages|
        invariant log == DocAttempts(doc, p) + PageAttempts(page, p, i)
        invariant modified <==> AnyOk(log)
      {
        var rec := pageImages[i];
        // the bbox lookup's outcome: it raised, or it returned a possibly empty list
        var bboxes := rec.bbox;
        // a failed decode skips the image and leaves `modified` as it is
        if rec.pixmap.DecodeFails? {
          assert PageAttempts(page, p, i + 1) == PageAttempts(page, p, i);
          i := i + 1;
          continue;
        }
        var pilImg := Raster(rec.pixmap.mode, rec.pixmap.width, rec.pixmap.height, None);
        var target: Box;
        var rect: Rect;
        if bboxes.Found? && |bboxes.rects| > 0 {
          target := ComputeTargetPixels(Some(bboxes.rects[0]), page.rect);
          rect := bboxes.rects[0];
        } else {
          target := ComputeTargetPixels(None, page.rect);
          rect := page.rect;
        }
        pilImg := pilImg.(mode := Gray);
        if pilImg.width > target.w || pilImg.height > target.h {
          pilImg := pilImg.(thumbnail := Some(target));
        }
        // the insertion's outcome: a success sets `modified`, a failure only warns
        var ok := rec.insertOk;
        var entry := Insertion(p, i, rec.xref, rect, target, pilImg, ok);
        assert Attempt(rec, page.rect, p, i) == Some(entry);
        assert PageAttempts(page, p, i + 1) == PageAttempts(page, p, i) + [entry];
        AnyOkAppend(log, entry);
        log := log + [entry];
        if ok {
          modified := true;
        }
        i := i + 1;
      }
      assert DocAttempts(doc, p + 1) == log;
      p := p + 1;
    }
    AnyOkIffSomeInsertionSucceeds(doc);
    if modified {
      outcome := Save(outputPath);
    } else {
      outcome := Copy(inputPath, outputPath);
    }
    result := true;
  }

  // ---------- properties of the specification ----------

  /** Every entry of a page's log comes from that page's image at its index, in increasing index order. */
  lemma {:induction false} PageAttemptsSound(page: Page, p: nat, n: nat)
    requires n <= |page.images|
    ensures forall k :: 0 <= k < |PageAttempts(page, p, n)| ==>
      var e := PageAttempts(page, p, n)[k];
      e.page == p && e.index < n && Attempt(page.images[e.index], page.rect, p, e.index) == Some(e)
    ensures forall j, k :: 0 <= j < k < |PageAttempts(page, p, n)| ==>
      PageAttempts(page, p, n)[j].index < PageAttempts(page, p, n)[k].index
  {
    if n > 0 {
      PageAttemptsSound(page, p, n - 1);
    }
  }

  /** Every decodable image among the first `n` of a page has an entry in the page's log. */
  lemma {:induction false} PageAttemptsComplete(page: Page, p: nat, n: nat, i: nat)
    requires i < n <= |page.images|
    requires page.images[i].pixmap.Decoded?
    ensures exists k :: 0 <= k < |PageAttempts(page, p, n)| && PageAttempts(page, p, n)[k].index == i
  {
    var log := PageAttempts(page, p, n);
    if i == n - 1 {
      assert log[|log| - 1].index == i;
    } else {
      PageAttemptsComplete(page, p, n - 1, i);
      var k :| 0 <= k < |PageAttempts(page, p, n - 1)| && PageAttempts(page, p, n - 1)[k].index == i;
      assert log[k] == PageAttempts(page, p, n - 1)[k];
    }
  }

  /**
   * Each logged insertion belongs to an image that exists and decodes, and is
   * exactly what processing that image produces (placement, target, gray mode,
   * thumbnail decision and the insertion's own success).
   */
  lemma {:induction false} AttemptsSound(doc: seq<Page>, n: nat)
    requires n <= |doc|
    ensures forall k :: 0 <= k < |DocAttempts(doc, n)| ==>
      var e := DocAttempts(doc, n)[k];
      e.page < n && e.index < |doc[e.page].images| &&
      doc[e.page].images[e.index].pixmap.Decoded? &&
      Attempt(doc[e.page].images[e.index], doc[e.page].rect, e.page, e.index) == Some(e)
  {
    if n > 0 {
      AttemptsSound(doc, n - 1);
      PageAttemptsSound(doc[n - 1], n - 1, |doc[n - 1].images|);
    }
  }

  /** `e` comes strictly before `f` in document order: an earlier page, or the same page and an earlier image. */
  predicate Before(e: Insertion, f: Insertion)
  {
    e.page < f.page || (e.page == f.page && e.index < f.index)
  }

  /** The log follows document order, so no image is inserted twice. */
  lemma {:induction false} AttemptsInDocumentOrder(doc: seq<Page>, n: nat)
    requires n <= |doc|
    ensures forall j, k :: 0 <= j < k < |DocAttempts(doc, n)| ==> Before(DocAttempts(doc, n)[j], DocAttempts(doc, n)[k])
  {
    if n > 0 {
      var prev := DocAttempts(doc, n - 1);
      var last := PageAttempts(doc[n - 1], n - 1, |doc[n - 1].images|);
      AttemptsInDocumentOrder(doc, n - 1);
      AttemptsSound(doc, n - 1);
      PageAttemptsSound(doc[n - 1], n - 1, |doc[n - 1].images|);
      var log := DocAttempts(doc, n);
      assert log == prev + last;
      forall j, k | 0 <= j < k < |log| ensures Before(log[j], log[k]) {
        if k < |prev| {
          assert log[j] == prev[j] && log[k] == prev[k];
        } else if j < |prev| {
          assert log[j] == prev[j] && log[k] == last[k - |prev|];
        } else {
          assert log[j] == last[j - |prev|] && log[k] == last[k - |prev|];
        }
      }
    }
  }

  /**
   * Every image that decodes gets an insertion attempt, whatever happened to the
   * images before it: a failed insertion does not stop the pass.
   */
  lemma {:induction false} AttemptsComplete(doc: seq<Page>, n: nat, p: nat, i: nat)
    requires p < n <= |doc| && i < |doc[p].images|
    requires doc[p].images[i].pixmap.Decoded?
    ensures exists k :: (0 <= k < |DocAttempts(doc, n)| &&
      DocAttempts(doc, n)[k].page == p && DocAttempts(doc, n)[k].index == i)
  {
    var prev := DocAttempts(doc, n - 1);
    var last := PageAttempts(doc[n - 1], n - 1, |doc[n - 1].images|);
    assert DocAttempts(doc, n) == prev + last;
    if p == n - 1 {
      PageAttemptsComplete(doc[p], p, |doc[p].images|, i);
      PageAttemptsSound(doc[p], p, |doc[p].images|);
      var k :| 0 <= k < |last| && last[k].index == i;
      assert DocAttempts(doc, n)[|prev| + k] == last[k];
    } else {
      AttemptsComplete(doc, n - 1, p, i);
      var k :| 0 <= k < |prev| && prev[k].page == p && prev[k].index == i;
      assert DocAttempts(doc, n)[k] == prev[k];
    }
  }

  /** `modified` (some insertion in the log succeeded) holds exactly when some image decodes and inserts. */
  lemma AnyOkIffSomeInsertionSucceeds(doc: seq<Page>)
    ensures AnyOk(Attempts(doc)) <==> SomeInsertionSucceeds(doc)
  {
    var log := Attempts(doc);
    if AnyOk(log) {
      var k :| 0 <= k < |log| && log[k].ok;
      AttemptsSound(doc, |doc|);
      var e := log[k];
      assert doc[e.page].images[e.index].pixmap.Decoded? && doc[e.page].images[e.index].insertOk;
    }
    if SomeInsertionSucceeds(doc) {
      var p, i :| 0 <= p < |doc| && 0 <= i < |doc[p].images| &&
        doc[p].images[i].pixmap.Decoded? && doc[p].images[i].insertOk;
      AttemptsComplete(doc, |doc|, p, i);
      AttemptsSound(doc, |doc|);
      var k :| 0 <= k < |log| && log[k].page == p && log[k].index == i;
      assert log[k].ok;
    }
  }

  /** An image whose decode fails gets no insertion attempt. */
  lemma DecodeFailureSkipped(doc: seq<Page>, p: nat, i: nat)
    requires p < |doc| && i < |doc[p].images|
    requires doc[p].images[i].pixmap.DecodeFails?
    ensures forall e :: e in Attempts(doc) ==> !(e.page == p && e.index == i)
  {
    AttemptsSound(doc, |doc|);
  }

  /** Nothing is inserted for a page on which no image decodes. */
  lemma {:induction false} PageAttemptsEmpty(page: Page, p: nat, n: nat)
    requires n <= |page.images|
    requires forall i :: 0 <= i < n ==> page.images[i].pixmap.DecodeFails?
    ensures PageAttempts(page, p, n) == []
  {
    if n > 0 {
      PageAttemptsEmpty(page, p, n - 1);
    }
  }

  /** Nothing is inserted in a document in which no image decodes. */
  lemma {:induction false} DocAttemptsEmpty(doc: seq<Page>, n: nat)
    requires n <= |doc|
    requires forall p, i :: 0 <= p < n && 0 <= i < |doc[p].images| ==> doc[p].images[i].pixmap.DecodeFails?
    ensures DocAttempts(doc, n) == []
  {
    if n > 0 {
      DocAttemptsEmpty(doc, n - 1);
      PageAttemptsEmpty(doc[n - 1], n - 1, |doc[n - 1].images|);
    }
  }

  /** A document whose every image fails to decode is copied, and nothing is inserted. */
  lemma AllDecodeFailuresCopy(doc: seq<Page>, inputPath: string, outputPath: string)
    requires forall p, i :: 0 <= p < |doc| && 0 <= i < |doc[p].images| ==> doc[p].images[i].pixmap.DecodeFails?
    ensures Attempts(doc) == []
    ensures ExpectedOutcome(doc, inputPath, outputPath) == Copy(inputPath, outputPath)
  {
    DocAttemptsEmpty(doc, |doc|);
  }

  /** A document with no images at all is copied, and nothing is inserted. */
  lemma NoImagesCopies(doc: seq<Page>, inputPath: string, outputPath: string)
    requires forall p :: 0 <= p < |doc| ==> doc[p].images == []
    ensures Attempts(doc) == []
    ensures ExpectedOutcome(doc, inputPath, outputPath) == Copy(inputPath, outputPath)
  {
    AllDecodeFailuresCopy(doc, inputPath, outputPath);
  }

  /**
   * One image that is processed and inserted and one that fails to decode: the
   * first is inserted, the second is left alone, and the document is saved.
   */
  lemma MixedDocumentSaved(rect: Rect, good: ImageRecord, bad: ImageRecord, inputPath: string, outputPath: string)
    requires good.pixmap.Decoded? && good.insertOk
    requires bad.pixmap.DecodeFails?
    ensures var doc := [Page(rect, [good, bad])];
      |Attempts(doc)| == 1 && Attempts(doc)[0].index == 0 &&
      ExpectedOutcome(doc, inputPath, outputPath) == Save(outputPath)
  {
    var doc := [Page(rect, [good, bad])];
    var e := Attempt(good, rect, 0, 0).value;
    assert PageAttempts(doc[0], 0, 1) == [e];
    assert PageAttempts(doc[0], 0, 2) == [e];
    assert Attempts(doc) == DocAttempts(doc, 0) + PageAttempts(doc[0], 0, 2);
  }
}
