/** The `Imagen_Producto` table as the catalog, cart and upload handlers read
    it, and its `order_by('-es_principal', 'id')` display order. */
module Images {
  import opened Common
  import Ordering

  /** An `Imagen_Producto` row. `url` is `Some` exactly when a file is attached,
      i.e. when the file field is truthy; an empty file name is falsy in the
      handlers' `if imagen.imagen` tests and is written `None`, so `Some("")`
      does not describe a stored row. */
  datatype Image = Image(id: nat, variant: int, url: Option<string>, text: string, principal: bool)

  /** Rows are stored in primary-key order. */
  ghost predicate IdsIncreasing(images: seq<Image>) {
    forall i, j :: 0 <= i < j < |images| ==> images[i].id < images[j].id
  }

  /** The "one principal image per variant" rule. */
  ghost predicate AtMostOnePrincipal(images: seq<Image>) {
    forall i, j :: 0 <= i < j < |images| && images[i].variant == images[j].variant ==>
      !(images[i].principal && images[j].principal)
  }

  /** `a` comes no later than `b` in `order_by('-es_principal', 'id')`. */
  predicate DisplayBefore(a: Image, b: Image) {
    (a.principal && !b.principal) || (a.principal == b.principal && a.id < b.id)
  }

  /** `order_by('-es_principal', 'id')` on rows stored in primary-key order:
      the principal images, then the others, each group by ascending id. */
  function PrincipalFirst(images: seq<Image>): (r: seq<Image>)
    ensures multiset(r) == multiset(images)
    ensures |r| == |images|
  {
    var isPrincipal := (img: Image) => img.principal;
    var notPrincipal := (img: Image) => !isPrincipal(img);
    var r := Ordering.Filter(images, isPrincipal) + Ordering.Filter(images, notPrincipal);
    forall x ensures multiset(r)[x] == multiset(images)[x] {
      Ordering.FilterCount(images, isPrincipal, x);
      Ordering.FilterCount(images, notPrincipal, x);
    }
    assert multiset(r) == multiset(images);
    r
  }

  /** The display order is exactly the requested ordering. */
  lemma PrincipalFirstOrdered(images: seq<Image>)
    requires IdsIncreasing(images)
    ensures Ordering.Pairwise(PrincipalFirst(images), DisplayBefore)
  {
    var isPrincipal := (img: Image) => img.principal;
    var notPrincipal := (img: Image) => !isPrincipal(img);
    var increasing := (a: Image, b: Image) => a.id < b.id;
    assert Ordering.Pairwise(images, increasing);
    Ordering.FilterPairwise(images, isPrincipal, increasing);
    Ordering.FilterPairwise(images, notPrincipal, increasing);
    var first := Ordering.Filter(images, isPrincipal);
    var rest := Ordering.Filter(images, notPrincipal);
    var r := first + rest;
    assert r == PrincipalFirst(images);
    forall i, j | 0 <= i < j < |r| ensures DisplayBefore(r[i], r[j]) {
      if j < |first| {
        assert r[i] == first[i] && r[j] == first[j] && first[i] in first && first[j] in first;
        assert increasing(first[i], first[j]);
      } else if i >= |first| {
        assert r[i] == rest[i - |first|] && r[j] == rest[j - |first|];
        assert r[i] in rest && r[j] in rest;
        assert increasing(rest[i - |first|], rest[j - |first|]);
      } else {
        assert r[i] in first && r[j] == rest[j - |first|] && r[j] in rest;
      }
    }
  }
}
