// The pool of src/dp/structural/Flyweight.cpp: images are shared under a key built from the file
// name and the product of the sizes.
module Flyweight {
  import opened Common
  import Decimal

  // A request, and the attributes of the image made for it.
  datatype Image = Image(fileName: string, width: int, height: int, dpi: int)

  function Product(r: Image): int { r.width * r.height * r.dpi }

  function Key(r: Image): string { "key_" + r.fileName + Decimal.Print(Product(r)) }

  // A request with the key it is looked up under.
  datatype Request = Request(key: string, image: Image)

  function Keyed(image: Image): Request { Request(Key(image), image) }

  // The first request with a key, if there is one.
  function FirstWith(rs: seq<Request>, key: string): Option<Image> {
    if rs == [] then None
    else
      var earlier := FirstWith(rs[..|rs| - 1], key);
      var last := rs[|rs| - 1];
      if earlier.None? && last.key == key then Some(last.image) else earlier
  }

  lemma {:induction false} FirstWithIsFirst(rs: seq<Request>, key: string, i: nat)
    requires i < |rs| && rs[i].key == key && forall j :: 0 <= j < i ==> rs[j].key != key
    ensures FirstWith(rs, key) == Some(rs[i].image)
    decreases |rs|
  {
    var n := |rs| - 1;
    if i < n {
      FirstWithIsFirst(rs[..n], key, i);
    } else {
      NoneWith(rs[..n], key);
    }
  }

  lemma {:induction false} NoneWith(rs: seq<Request>, key: string)
    ensures FirstWith(rs, key) == None <==> forall j :: 0 <= j < |rs| ==> rs[j].key != key
  {
    if rs != [] {
      NoneWith(rs[..|rs| - 1], key);
    }
  }

  // An entry never changes once it is there.
  lemma FirstWithGrows(rs: seq<Request>, r: Request, key: string)
    ensures FirstWith(rs + [r], key)
         == if FirstWith(rs, key).None? && key == r.key then Some(r.image) else FirstWith(rs, key)
  {
    assert (rs + [r])[..|rs|] == rs;
  }

  class ImageFlyweightFactory {
    var pool: map<string, Image>
    ghost var requests: seq<Request>

    // Each requested key, and no other, has the attributes of its first request.
    ghost predicate Valid()
      reads this
    {
      forall key :: FirstWith(requests, key) == if key in pool then Some(pool[key]) else None
    }

    constructor ()
      ensures Valid() && pool == map[] && requests == []
    {
      pool, requests := map[], [];
    }

    method GetImageFlyweight(image: Image) returns (shared: Image)
      requires Valid()
      modifies this
      ensures Valid() && requests == old(requests) + [Keyed(image)]
      ensures FirstWith(requests, Key(image)) == Some(shared)
      ensures shared == if Key(image) in old(pool) then old(pool)[Key(image)] else image
      ensures pool == old(pool)[Key(image) := shared]
    {
      var key := Key(image);
      if key !in pool {
        pool := pool[key := image];
      }
      forall k { FirstWithGrows(requests, Keyed(image), k); }
      requests := requests + [Keyed(image)];
      shared := pool[key];
    }
  }

  // Each request got the attributes of the first request with its key.
  ghost predicate Served(rs: seq<Request>, images: seq<Image>) {
    && |images| == |rs|
    && forall i :: 0 <= i < |rs| ==> FirstWith(rs, rs[i].key) == Some(images[i])
  }

  lemma ServedNext(rs: seq<Request>, images: seq<Image>, r: Request, image: Image)
    requires Served(rs, images) && FirstWith(rs + [r], r.key) == Some(image)
    ensures Served(rs + [r], images + [image])
  {
    var rs', images' := rs + [r], images + [image];
    forall i | 0 <= i < |rs'| ensures FirstWith(rs', rs'[i].key) == Some(images'[i]) {
      if i < |rs| {
        FirstWithGrows(rs, r, rs[i].key);
      }
    }
  }

  ghost function AllKeyed(images: seq<Image>): (rs: seq<Request>)
    ensures |rs| == |images| && forall i :: 0 <= i < |rs| ==> rs[i] == Keyed(images[i])
  {
    if images == [] then []
    else AllKeyed(images[..|images| - 1]) + [Keyed(images[|images| - 1])]
  }

  // The image that answers request i is the earliest one wanted under the same key.
  ghost predicate IsEarliest(wanted: seq<Image>, i: nat, image: Image)
    requires i < |wanted|
  {
    exists j :: 0 <= j <= i && image == wanted[j] && Key(wanted[j]) == Key(wanted[i])
                && forall k :: 0 <= k < j ==> Key(wanted[k]) != Key(wanted[i])
  }

  lemma {:induction false} EarliestUpTo(rs: seq<Request>, i: nat) returns (j: nat)
    requires i < |rs|
    ensures j <= i && rs[j].key == rs[i].key && forall k :: 0 <= k < j ==> rs[k].key != rs[i].key
    decreases i
  {
    if k :| 0 <= k < i && rs[k].key == rs[i].key {
      j := EarliestUpTo(rs, k);
    } else {
      j := i;
    }
  }

  lemma {:induction false} ServedEarliest(wanted: seq<Image>, images: seq<Image>, i: nat)
    requires Served(AllKeyed(wanted), images) && i < |wanted|
    ensures IsEarliest(wanted, i, images[i])
  {
    var rs := AllKeyed(wanted);
    var j := EarliestUpTo(rs, i);
    FirstWithIsFirst(rs, rs[i].key, j);
    assert forall k :: 0 <= k < j ==> rs[k].key == Key(wanted[k]);
    assert images[i] == wanted[j];
  }

  // A run of requests on a fresh pool.
  method RequestAll(wanted: seq<Image>) returns (images: seq<Image>)
    ensures |images| == |wanted|
    ensures forall i :: 0 <= i < |wanted| ==> IsEarliest(wanted, i, images[i])
  {
    var factory := new ImageFlyweightFactory();
    images := [];
    for n := 0 to |wanted|
      invariant fresh(factory) && factory.Valid()
      invariant factory.requests == AllKeyed(wanted[..n])
      invariant Served(factory.requests, images)
    {
      ghost var rs := factory.requests;
      var image := factory.GetImageFlyweight(wanted[n]);
      ServedNext(rs, images, Keyed(wanted[n]), image);
      assert wanted[..n + 1][..n] == wanted[..n];
      images := images + [image];
    }
    assert wanted[..|wanted|] == wanted;
    forall i | 0 <= i < |wanted| ensures IsEarliest(wanted, i, images[i]) {
      ServedEarliest(wanted, images, i);
    }
  }

  // ----- which requests share -----

  lemma Cancel(p: string, s: string, t: string)
    requires p + s == p + t
    ensures s == t
  {
    assert (p + s)[|p|..] == s && (p + t)[|p|..] == t;
  }

  // Requests for the same file share an image exactly when their products are equal.
  lemma SameFileShares(a: Image, b: Image)
    requires a.fileName == b.fileName
    ensures Key(a) == Key(b) <==> a.width * a.height * a.dpi == b.width * b.height * b.dpi
  {
    if Key(a) == Key(b) {
      Cancel("key_" + a.fileName, Decimal.Print(Product(a)), Decimal.Print(Product(b)));
      Decimal.PrintInjective(Product(a), Product(b));
    }
  }

  // a's name is b's name and some characters that start b's printed product instead.
  ghost predicate Absorbs(a: Image, b: Image) {
    |b.fileName| <= |a.fileName| && a.fileName[..|b.fileName|] == b.fileName
    && Decimal.Print(b.width * b.height * b.dpi)
       == a.fileName[|b.fileName|..] + Decimal.Print(a.width * a.height * a.dpi)
  }

  // The key of the program's own image of 8 by 8 at 96 dpi, for any file.
  lemma KeyOfImage(name: string)
    ensures Key(Image(name, 8, 8, 96)) == "key_" + name + "6144"
  {
    Decimal.PrintOfDigits(6, 1, 4, 4, 6144);
  }

  // Any two requests share an image exactly when one name absorbs digits of the other product.
  lemma KeysCollide(a: Image, b: Image)
    ensures Key(a) == Key(b) <==> Absorbs(a, b) || Absorbs(b, a)
  {
    if Key(a) == Key(b) {
      if |b.fileName| <= |a.fileName| { SharedAbsorbs(a, b); } else { SharedAbsorbs(b, a); }
    }
    if Absorbs(a, b) { AbsorbingShares(a, b); }
    if Absorbs(b, a) { AbsorbingShares(b, a); }
  }

  lemma SharedAbsorbs(a: Image, b: Image)
    requires Key(a) == Key(b) && |b.fileName| <= |a.fileName|
    ensures Absorbs(a, b)
  {
    var s, t := Decimal.Print(Product(a)), Decimal.Print(Product(b));
    var n := |b.fileName|;
    Cancel("key_", a.fileName + s, b.fileName + t) by {
      assert Key(a) == "key_" + (a.fileName + s) && Key(b) == "key_" + (b.fileName + t);
    }
    assert (a.fileName + s)[..n] == (b.fileName + t)[..n];
    assert (a.fileName + s)[n..] == a.fileName[n..] + s && (b.fileName + t)[n..] == t;
  }

  lemma AbsorbingShares(a: Image, b: Image)
    requires Absorbs(a, b)
    ensures Key(a) == Key(b)
  {
    assert a.fileName == b.fileName + a.fileName[|b.fileName|..];
  }

  // The name cannot be confused with the number printed behind it.
  predicate PlainEnd(name: string) {
    name != "" ==> !Decimal.IsDigit(name[|name| - 1]) && name[|name| - 1] != '-'
  }

  // Where file names do not end in a digit or a minus sign, sharing is as narrow as it can be.
  lemma PlainNamesDoNotCollide(a: Image, b: Image)
    requires PlainEnd(a.fileName) && PlainEnd(b.fileName)
    ensures Key(a) == Key(b) <==> a.fileName == b.fileName && a.width * a.height * a.dpi == b.width * b.height * b.dpi
  {
    if Key(a) == Key(b) {
      KeysCollide(a, b);
      if Absorbs(a, b) { PlainAbsorbs(a, b); } else { PlainAbsorbs(b, a); }
      SameFileShares(a, b);
    }
  }

  lemma PlainAbsorbs(a: Image, b: Image)
    requires Absorbs(a, b) && PlainEnd(a.fileName)
    ensures a.fileName == b.fileName
  {
    if |b.fileName| < |a.fileName| {
      AbsorbedEnd(a, b);
    }
  }

  lemma AbsorbedEnd(a: Image, b: Image)
    requires Absorbs(a, b) && |b.fileName| < |a.fileName|
    ensures var c := a.fileName[|a.fileName| - 1]; Decimal.IsDigit(c) || c == '-'
  {
    var tail := a.fileName[|b.fileName|..];
    Decimal.PrintCharacters(Product(b));
    assert Decimal.Print(Product(b))[|tail| - 1] == tail[|tail| - 1];
  }

  // So different files can share an image, and an image can come back with its sides swapped.
  lemma SharingIsTooWide()
    ensures Key(Image("img", 1, 1, 11)) == Key(Image("img1", 1, 1, 1))
    ensures Key(Image("img", 8, 4, 96)) == Key(Image("img", 4, 8, 96))
  {
    var a, b := Image("img1", 1, 1, 1), Image("img", 1, 1, 11);
    assert Decimal.Print(11) == "1" + Decimal.Print(1);
    assert a.fileName[3..] == "1" && a.fileName[..3] == "img";
    AbsorbingShares(a, b);
  }
}
