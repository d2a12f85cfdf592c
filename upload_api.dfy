/** The image endpoints of the catalog: uploading an image for a variant
    (`ImageUploadAPIView.post`), the content type guessed from a file name,
    the public listing (`ImageDisplayAPIView.get`) and the counters
    (`ImageStatsAPIView.get`). The stored file itself is represented by its
    name; the object store that receives it is not part of this model. */
module Uploads {
  import opened Common
  import opened Text
  import opened Images
  import Ordering

  /** The extension table of `_get_content_type`. */
  const ContentTypes: map<string, string> :=
    map["jpg" := "image/jpeg", "jpeg" := "image/jpeg", "png" := "image/png",
        "gif" := "image/gif", "webp" := "image/webp", "bmp" := "image/bmp"]

  /** The type used for every extension the table does not name. */
  const DefaultContentType: string := "image/jpeg"

  /** `_get_content_type`: no type for an absent or empty name; otherwise the
      table entry for the lower-cased text after the last '.', or the default. */
  function ContentType(name: Option<string>): (r: Option<string>)
    ensures r.None? <==> name.None? || name.value == []
    ensures r.Some? ==> r.value in ContentTypes.Values
  {
    if name.None? || name.value == [] then None
    else
      var ext := AfterLast(Lower(name.value), '.');
      DefaultInTable();
      Some(if ext in ContentTypes then ContentTypes[ext] else DefaultContentType)
  }

  /** The default type is itself one of the table's types. */
  lemma DefaultInTable()
    ensures DefaultContentType in ContentTypes.Values
  {
    assert "jpg" in ContentTypes && ContentTypes["jpg"] == DefaultContentType;
  }

  /** The text after the last '.' of a name ending in '.' followed by a
      dot-free extension is that extension. */
  lemma {:induction false} AfterLastDot(s: string, ext: string)
    requires '.' !in ext && EndsWith(s, ['.'] + ext)
    ensures AfterLast(s, '.') == ext
    decreases |ext|
  {
    var n := |s|;
    var tail := s[n - |ext| - 1..];
    assert tail == ['.'] + ext;
    if ext == [] {
      assert s[n - 1] == tail[0];
    } else {
      var m := |ext|;
      var init, e := s[..n - 1], ext[..m - 1];
      assert s[n - 1] == tail[m] == ext[m - 1];
      assert ext[m - 1] in ext;
      assert init[|init| - |e| - 1..] == tail[..m] == ['.'] + e;
      assert '.' !in e by {
        forall k | 0 <= k < |e| ensures e[k] != '.' {
          assert e[k] == ext[k] && ext[k] in ext;
        }
      }
      AfterLastDot(init, e);
      assert ext == e + [ext[m - 1]];
    }
  }

  /** Lowering keeps the '.' positions: a name ending in '.' + ext lowers to
      one ending in '.' + the lowered ext. */
  lemma LowerKeepsSuffix(name: string, ext: string)
    requires '.' !in ext && EndsWith(name, ['.'] + ext)
    ensures '.' !in Lower(ext) && EndsWith(Lower(name), ['.'] + Lower(ext))
  {
    var n := |name|;
    var lowered := Lower(name);
    var suffix := ['.'] + Lower(ext);
    forall k | 0 <= k < |suffix| ensures lowered[n - |suffix| + k] == suffix[k] {
      assert name[n - |ext| - 1..][k] == (['.'] + ext)[k];
    }
    assert lowered[n - |suffix|..] == suffix;
    forall k | 0 <= k < |ext| ensures Lower(ext)[k] != '.' {
      assert ext[k] in ext;
    }
  }

  /** A file named `<base>.<ext>` gets the type of its extension, whatever
      its capitalisation; an unknown extension gets the default. */
  lemma ContentTypeOfExtension(name: string, ext: string)
    requires '.' !in ext && EndsWith(name, ['.'] + ext)
    ensures Lower(ext) in ContentTypes ==> ContentType(Some(name)) == Some(ContentTypes[Lower(ext)])
    ensures Lower(ext) !in ContentTypes ==> ContentType(Some(name)) == Some(DefaultContentType)
  {
    LowerKeepsSuffix(name, ext);
    AfterLastDot(Lower(name), Lower(ext));
  }

  /** A name without a '.' is its own extension: `png` is image/png and
      `archivo` falls back to the default. */
  lemma ContentTypeWithoutDot(name: string)
    requires name != [] && '.' !in name
    ensures Lower(name) in ContentTypes ==> ContentType(Some(name)) == Some(ContentTypes[Lower(name)])
    ensures Lower(name) !in ContentTypes ==> ContentType(Some(name)) == Some(DefaultContentType)
  {
    var lowered := Lower(name);
    forall k | 0 <= k < |lowered| ensures lowered[k] != '.' {
      assert name[k] in name;
    }
  }

  /** The extension is compared in lower case. */
  lemma ContentTypeUpperCase()
    ensures ContentType(Some("Foto.PNG")) == Some("image/png")
  {
    assert Lower("PNG") == "png";
    assert "Foto.PNG"[4..] == ".PNG";
    assert "png" in ContentTypes && ContentTypes["png"] == "image/png";
    ContentTypeOfExtension("Foto.PNG", "PNG");
  }

  /** Only the text after the last '.' counts. */
  lemma ContentTypeLastDot()
    ensures ContentType(Some("foto.png.gz")) == Some("image/jpeg")
  {
    assert Lower("gz") == "gz";
    assert "foto.png.gz"[8..] == ".gz";
    assert forall k :: k in ContentTypes ==> |k| >= 3;
    ContentTypeOfExtension("foto.png.gz", "gz");
  }

  /** `get('es_principal', 'false').lower() == 'true'` (also the `principal`
      query parameter of the listing). */
  function PrincipalFlag(flag: Option<string>): (r: bool)
    ensures flag.None? ==> !r
    ensures flag.Some? ==> (r <==> Lower(flag.value) == "true")
  {
    Lower(if flag.None? then "false" else flag.value) == "true"
  }

  /** Any capitalisation of `true` sets the flag; nothing else does. */
  lemma PrincipalFlagExamples()
    ensures PrincipalFlag(Some("TRUE")) && PrincipalFlag(Some("True"))
    ensures !PrincipalFlag(Some("1")) && !PrincipalFlag(Some("yes")) && !PrincipalFlag(Some(" true"))
  {
  }

  /** `filter(Producto_categoria=variant, es_principal=True).update(es_principal=False)`. */
  function ClearPrincipal(images: seq<Image>, variant: int): (r: seq<Image>)
    ensures |r| == |images|
    ensures forall k :: 0 <= k < |r| && images[k].variant != variant ==> r[k] == images[k]
    ensures forall k :: 0 <= k < |r| && images[k].variant == variant ==>
      r[k] == images[k].(principal := false)
  {
    seq(|images|, k requires 0 <= k < |images| =>
      if images[k].variant == variant && images[k].principal then images[k].(principal := false) else images[k])
  }

  /** The answer of an upload and the image table after it. */
  datatype UploadStep = UploadStep(result: Result<Image>, images: seq<Image>, nextId: nat)

  /** `ImageUploadAPIView.post`: a file and a variant id are required and the
      variant must exist; a principal upload first clears the variant's
      principal flags, then the new row is inserted with the next id. The
      variant id arrives as form text, so only an absent or empty value
      (`None`) is refused as missing. */
  function UploadSpec(images: seq<Image>, nextId: nat, file: Option<string>, variant: Option<int>,
                      variants: set<int>, text: Option<string>, flag: Option<string>): UploadStep
  {
    if file.None? || variant.None? then UploadStep(Err(MissingParameter), images, nextId)
    else if variant.value !in variants then UploadStep(Err(NotFound), images, nextId)
    else
      var principal := PrincipalFlag(flag);
      var kept := if principal then ClearPrincipal(images, variant.value) else images;
      var image := Image(nextId, variant.value, file, if text.None? then "" else text.value, principal);
      UploadStep(Ok(image), kept + [image], nextId + 1)
  }

  /** The `Imagen_Producto` table, written by uploads. The upload view requires
      a signed-in caller (`IsAuthenticated`): an anonymous upload is answered
      401 and leaves the table and the id counter as they were. */
  class ImageStore {
    var images: seq<Image>
    var nextId: nat

    constructor()
      ensures images == [] && nextId == 1
    {
      images := [];
      nextId := 1;
    }

    method Upload(signedIn: bool, file: Option<string>, variant: Option<int>, variants: set<int>,
                  text: Option<string>, flag: Option<string>) returns (r: Result<Image>)
      modifies this
      ensures UploadStep(r, images, nextId) ==
        if signedIn then UploadSpec(old(images), old(nextId), file, variant, variants, text, flag)
        else UploadStep(Err(Unauthorized), old(images), old(nextId))
    {
      if !signedIn {
        return Err(Unauthorized);
      }
      if file.None? || variant.None? {
        return Err(MissingParameter);
      }
      if variant.value !in variants {
        return Err(NotFound);
      }
      var principal := PrincipalFlag(flag);
      if principal {
        var k := 0;
        while k < |images|
          invariant 0 <= k <= |images| == |old(images)| && nextId == old(nextId)
          invariant forall j :: 0 <= j < |images| ==>
            images[j] == if j < k then ClearPrincipal(old(images), variant.value)[j] else old(images)[j]
        {
          if images[k].variant == variant.value && images[k].principal {
            images := images[k := images[k].(principal := false)];
          }
          k := k + 1;
        }
        assert images == ClearPrincipal(old(images), variant.value);
      }
      var image := Image(nextId, variant.value, file, if text.None? then "" else text.value, principal);
      assert images == if principal then ClearPrincipal(old(images), variant.value) else old(images);
      images := images + [image];
      nextId := nextId + 1;
      return Ok(image);
    }
  }

  /** The table invariant uploads keep: ids increasing and below the next id,
      and at most one principal image per variant. */
  ghost predicate StoreInv(images: seq<Image>, nextId: nat) {
    IdsIncreasing(images) && (forall img :: img in images ==> img.id < nextId) && AtMostOnePrincipal(images)
  }

  /** A refused upload creates no record and changes no flag. */
  lemma UploadRefused(images: seq<Image>, nextId: nat, file: Option<string>, variant: Option<int>,
                      variants: set<int>, text: Option<string>, flag: Option<string>)
    requires file.None? || variant.None? || variant.value !in variants
    ensures var step := UploadSpec(images, nextId, file, variant, variants, text, flag);
      step.images == images && step.nextId == nextId
      && step.result == Err(if file.None? || variant.None? then MissingParameter else NotFound)
  {
  }

  /** After a principal upload the new image is the only principal image of its variant. */
  lemma PrincipalUploadIsSole(images: seq<Image>, nextId: nat, file: Option<string>, variant: Option<int>,
                              variants: set<int>, text: Option<string>, flag: Option<string>)
    requires UploadSpec(images, nextId, file, variant, variants, text, flag).result.Ok?
    requires PrincipalFlag(flag)
    ensures var after := UploadSpec(images, nextId, file, variant, variants, text, flag).images;
      |after| == |images| + 1
      && forall k :: 0 <= k < |after| ==>
        (after[k].variant == variant.value && after[k].principal <==> k == |images|)
  {
  }

  /** A non-principal upload only appends: every existing row, flag included, is kept. */
  lemma PlainUploadAppends(images: seq<Image>, nextId: nat, file: Option<string>, variant: Option<int>,
                           variants: set<int>, text: Option<string>, flag: Option<string>)
    requires UploadSpec(images, nextId, file, variant, variants, text, flag).result.Ok?
    requires !PrincipalFlag(flag)
    ensures var step := UploadSpec(images, nextId, file, variant, variants, text, flag);
      step.images == images + [step.result.value] && !step.result.value.principal
  {
  }

  /** An upload touches no image of another variant, and changes existing
      images of its own variant at most in their principal flag. */
  lemma UploadLocal(images: seq<Image>, nextId: nat, file: Option<string>, variant: Option<int>,
                    variants: set<int>, text: Option<string>, flag: Option<string>)
    requires UploadSpec(images, nextId, file, variant, variants, text, flag).result.Ok?
    ensures var after := UploadSpec(images, nextId, file, variant, variants, text, flag).images;
      |after| == |images| + 1
      && (forall k :: 0 <= k < |images| && images[k].variant != variant.value ==> after[k] == images[k])
      && (forall k :: 0 <= k < |images| ==> after[k] == images[k].(principal := after[k].principal))
  {
  }

  /** Uploads keep the table invariant. */
  lemma UploadKeepsInv(images: seq<Image>, nextId: nat, file: Option<string>, variant: Option<int>,
                       variants: set<int>, text: Option<string>, flag: Option<string>)
    requires StoreInv(images, nextId)
    ensures var step := UploadSpec(images, nextId, file, variant, variants, text, flag);
      StoreInv(step.images, step.nextId)
  {
    var step := UploadSpec(images, nextId, file, variant, variants, text, flag);
    if step.result.Ok? {
      var image := step.result.value;
      var kept := step.images[..|images|];
      assert step.images == kept + [image];
      UploadLocal(images, nextId, file, variant, variants, text, flag);
      AppendKeepsIds(images, nextId, kept, image);
      AppendKeepsOnePrincipal(images, kept, image);
    }
  }

  /** Rows changed at most in their flags, followed by a row with the next id,
      keep ids increasing and below the next id. */
  lemma AppendKeepsIds(images: seq<Image>, nextId: nat, kept: seq<Image>, image: Image)
    requires IdsIncreasing(images) && forall img :: img in images ==> img.id < nextId
    requires |kept| == |images| && forall k :: 0 <= k < |images| ==> kept[k].id == images[k].id
    requires image.id == nextId
    ensures IdsIncreasing(kept + [image]) && forall img :: img in kept + [image] ==> img.id < nextId + 1
  {
    var after := kept + [image];
    forall i, j | 0 <= i < j < |after| ensures after[i].id < after[j].id {
      if j == |images| {
        assert images[i] in images;
      }
    }
    forall img | img in after ensures img.id < nextId + 1 {
      if img != image {
        var k :| 0 <= k < |kept| && kept[k] == img;
        assert images[k] in images;
      }
    }
  }

  /** Clearing flags never adds a principal image; a new principal image is
      only added once its variant has none left. */
  lemma AppendKeepsOnePrincipal(images: seq<Image>, kept: seq<Image>, image: Image)
    requires AtMostOnePrincipal(images)
    requires |kept| == |images|
    requires forall k :: 0 <= k < |images| ==> kept[k] == images[k].(principal := kept[k].principal)
    requires forall k :: 0 <= k < |images| && kept[k].principal ==> images[k].principal
    requires image.principal ==> forall k :: 0 <= k < |kept| && kept[k].variant == image.variant ==> !kept[k].principal
    ensures AtMostOnePrincipal(kept + [image])
  {
    var after := kept + [image];
    forall i, j | 0 <= i < j < |after| && after[i].variant == after[j].variant
      ensures !(after[i].principal && after[j].principal)
    {
      if j < |images| {
        assert after[i] == kept[i] && after[j] == kept[j];
        assert images[i].variant == images[j].variant;
      }
    }
  }

  /** A variant's product and (nullable) category, as the listing filters read them. */
  datatype VariantLink = VariantLink(product: int, category: Option<int>)

  /** The query parameters of the listing; an absent or empty parameter is `None`. */
  datatype DisplayQuery = DisplayQuery(image: Option<int>, variant: Option<int>, product: Option<int>,
                                       category: Option<int>, principal: Option<string>)

  /** The listed fields of one image (`_format_image_data`). */
  datatype ImageEntry = ImageEntry(id: nat, url: Option<string>, text: string, principal: bool, variant: int,
                                   contentType: Option<string>)

  function EntryOf(image: Image): ImageEntry {
    ImageEntry(image.id, image.url, image.text, image.principal, image.variant, ContentType(image.url))
  }

  /** An image passes every filter the query sets. */
  predicate DisplayMatches(image: Image, links: map<int, VariantLink>, q: DisplayQuery) {
    (q.variant.None? || image.variant == q.variant.value)
    && (q.product.None? || (image.variant in links && links[image.variant].product == q.product.value))
    && (q.category.None? || (image.variant in links && links[image.variant].category == Some(q.category.value)))
    && (!PrincipalFlag(q.principal) || image.principal)
  }

  /** The listed images: the filtered table in display order. */
  function Displayed(images: seq<Image>, links: map<int, VariantLink>, q: DisplayQuery): (r: seq<Image>)
    ensures forall image :: image in r <==> image in images && DisplayMatches(image, links, q)
  {
    var matching := Ordering.Filter(images, (image: Image) => DisplayMatches(image, links, q));
    var r := PrincipalFirst(matching);
    assert forall image :: image in r <==> image in matching by {
      forall image ensures image in r <==> image in matching {
        assert image in r <==> multiset(r)[image] > 0;
        assert image in matching <==> multiset(matching)[image] > 0;
      }
    }
    r
  }

  /** On a table kept in primary-key order the listing is principal images
      first, then by ascending id. */
  lemma DisplayedInOrder(images: seq<Image>, links: map<int, VariantLink>, q: DisplayQuery)
    requires IdsIncreasing(images)
    ensures Ordering.Pairwise(Displayed(images, links, q), DisplayBefore)
  {
    var p := (image: Image) => DisplayMatches(image, links, q);
    var increasing := (a: Image, b: Image) => a.id < b.id;
    assert Ordering.Pairwise(images, increasing);
    Ordering.FilterPairwise(images, p, increasing);
    PrincipalFirstOrdered(Ordering.Filter(images, p));
  }

  /** The entries of a sequence of images, in order. */
  function Entries(images: seq<Image>): (r: seq<ImageEntry>)
    ensures |r| == |images|
    ensures forall k :: 0 <= k < |r| ==> r[k] == EntryOf(images[k])
  {
    seq(|images|, k requires 0 <= k < |images| => EntryOf(images[k]))
  }

  /** The formatting loop of the listing. */
  method FormatImages(images: seq<Image>) returns (entries: seq<ImageEntry>)
    ensures entries == Entries(images)
  {
    entries := [];
    for k := 0 to |images|
      invariant entries == Entries(images[..k])
    {
      entries := entries + [EntryOf(images[k])];
    }
    assert images[..|images|] == images;
  }

  /** The position of the image with primary key `id` (`queryset.get(id=...)`). */
  function FindImage(images: seq<Image>, id: int): (r: Option<nat>)
    ensures r.Some? ==> r.value < |images| && images[r.value].id == id
    ensures r.None? ==> forall image :: image in images ==> image.id != id
  {
    if images == [] then None
    else if images[0].id == id then Some(0)
    else match FindImage(images[1..], id)
      case None => None
      case Some(k) => Some(k + 1)
  }

  /** `ImageDisplayAPIView.get`: one image by id (or not found), otherwise the
      filtered listing. */
  function DisplaySpec(images: seq<Image>, links: map<int, VariantLink>, q: DisplayQuery): (r: Result<seq<ImageEntry>>)
    ensures q.image.Some? && r.Ok? ==>
      exists image :: image in images && image.id == q.image.value && r.value == [EntryOf(image)]
    ensures q.image.Some? && r.Err? ==> r.error == NotFound && forall image :: image in images ==> image.id != q.image.value
    ensures q.image.None? ==> r == Ok(Entries(Displayed(images, links, q)))
  {
    if q.image.Some? then
      match FindImage(images, q.image.value)
      case None => Err(NotFound)
      case Some(k) => Ok([EntryOf(images[k])])
    else Ok(Entries(Displayed(images, links, q)))
  }

  /** The listing handler: filter, order, then format in a loop. */
  method Display(images: seq<Image>, links: map<int, VariantLink>, q: DisplayQuery) returns (r: Result<seq<ImageEntry>>)
    ensures r == DisplaySpec(images, links, q)
  {
    if q.image.Some? {
      var found := FindImage(images, q.image.value);
      if found.None? {
        return Err(NotFound);
      }
      return Ok([EntryOf(images[found.value])]);
    }
    var entries := FormatImages(Displayed(images, links, q));
    return Ok(entries);
  }

  /** The counters of `ImageStatsAPIView.get`. */
  datatype ImageStats = ImageStats(total: nat, principal: nat, secondary: int, products: nat, categories: nat)

  /** The products and categories that have at least one image; the category
      of a variant may be null, and a null counts as one distinct value. */
  function ProductsWithImages(images: seq<Image>, links: map<int, VariantLink>): set<int> {
    set image | image in images && image.variant in links :: links[image.variant].product
  }

  function CategoriesWithImages(images: seq<Image>, links: map<int, VariantLink>): set<Option<int>> {
    set image | image in images && image.variant in links :: links[image.variant].category
  }

  function Stats(images: seq<Image>, links: map<int, VariantLink>): (r: ImageStats)
    ensures r.secondary == |Ordering.Filter(images, (image: Image) => !image.principal)|
    ensures r.principal + r.secondary == r.total == |images|
    ensures r.products <= r.total && r.categories <= r.total
  {
    var isPrincipal := (image: Image) => image.principal;
    var principal := |Ordering.Filter(images, isPrincipal)|;
    Ordering.FilterSplitCount(images, isPrincipal, (image: Image) => !image.principal);
    ImageSetBound(images, links, (link: VariantLink) => link.product);
    ImageSetBound(images, links, (link: VariantLink) => link.category);
    assert ProductsWithImages(images, links) == set image | image in images && image.variant in links :: ((link: VariantLink) => link.product)(links[image.variant]);
    assert CategoriesWithImages(images, links) == set image | image in images && image.variant in links :: ((link: VariantLink) => link.category)(links[image.variant]);
    ImageStats(|images|, principal, |images| - principal,
               |ProductsWithImages(images, links)|, |CategoriesWithImages(images, links)|)
  }

  /** The counted products and categories are exactly those some image's variant links to. */
  lemma StatsCountsImageKeys(images: seq<Image>, links: map<int, VariantLink>, product: int, category: Option<int>)
    ensures product in ProductsWithImages(images, links) <==>
      exists image :: image in images && image.variant in links && links[image.variant].product == product
    ensures category in CategoriesWithImages(images, links) <==>
      exists image :: image in images && image.variant in links && links[image.variant].category == category
  {
  }

  /** No more distinct values than images. */
  lemma {:induction false} ImageSetBound<U>(images: seq<Image>, links: map<int, VariantLink>, f: VariantLink -> U)
    ensures |set image | image in images && image.variant in links :: f(links[image.variant])| <= |images|
  {
    if images != [] {
      ImageSetBound(images[1..], links, f);
      var all := set image | image in images && image.variant in links :: f(links[image.variant]);
      var rest := set image | image in images[1..] && image.variant in links :: f(links[image.variant]);
      var head := if images[0].variant in links then {f(links[images[0].variant])} else {};
      assert all <= rest + head by {
        forall u | u in all ensures u in rest + head {
          var image :| image in images && image.variant in links && f(links[image.variant]) == u;
          if image != images[0] {
            assert image in images[1..];
          }
        }
      }
      assert |rest + head| <= |rest| + |head|;
      Ordering.SubsetCardinality(all, rest + head);
    }
  }
}
