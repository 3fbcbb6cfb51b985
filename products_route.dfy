/** The product-creation handler (`POST /api/products`): slug derivation, the server-side
    discount percentage, the fail-fast validation sequence, the upload of the images and of
    the optional video, and the choice between the online and the offline collection.
    Object storage, the category lookup and the database write are parameters. */
module ProductsRoute {
  import opened JsValues

  const ImagePrefix := "products/image/"
  const VideoPrefix := "products/vedio/"

  const MsgRequired := "Please fill required fields"
  const MsgInvalidCategory := "Invalid Category"
  const MsgInvalidPrice := "Invalid price or discounted price values"

  // ---------------------------------------------------------------- slug

  /** Stage 1, `toLowerCase()` on ASCII text. */
  function Lowercase(s: string): (r: string)
    ensures |r| == |s|
    ensures forall i :: 0 <= i < |s| ==> r[i] == LowerAscii(s[i])
  {
    if s == [] then [] else [LowerAscii(s[0])] + Lowercase(s[1..])
  }

  /** Stage 2, `replace(/ /g, "-")`. */
  function SpacesToHyphens(s: string): (r: string)
    ensures |r| == |s|
    ensures forall i :: 0 <= i < |s| ==> r[i] == if s[i] == ' ' then '-' else s[i]
  {
    if s == [] then [] else [if s[0] == ' ' then '-' else s[0]] + SpacesToHyphens(s[1..])
  }

  /** A character that survives `replace(/[^\w-]+/g, "")`. */
  predicate IsKept(c: char) { IsWordChar(c) || c == '-' }

  /** Stage 3, `replace(/[^\w-]+/g, "")`: every character outside `[A-Za-z0-9_-]` is dropped
      (dropping each run of them is dropping each of them). */
  function StripNonWord(s: string): (r: string)
    ensures |r| <= |s|
    ensures forall i :: 0 <= i < |r| ==> IsKept(r[i])
  {
    if s == [] then [] else (if IsKept(s[0]) then [s[0]] else []) + StripNonWord(s[1..])
  }

  /** Stage 3 removes only the characters outside `[A-Za-z0-9_-]`: every kept character
      survives as often as it occurs. */
  lemma {:induction false} StripNonWordKeepsKept(s: string)
    ensures forall c :: multiset(StripNonWord(s))[c] == if IsKept(c) then multiset(s)[c] else 0
  {
    if s != [] {
      StripNonWordKeepsKept(s[1..]);
      assert s == [s[0]] + s[1..];
      assert StripNonWord(s) == (if IsKept(s[0]) then [s[0]] else []) + StripNonWord(s[1..]);
    }
  }

  /** The characters a slug is made of: `[a-z0-9_-]`. */
  predicate IsSlugChar(c: char) { IsLower(c) || IsDigit(c) || c == '_' || c == '-' }

  predicate IsSlug(s: string) { forall i :: 0 <= i < |s| ==> IsSlugChar(s[i]) }

  /** `name.toLowerCase().replace(/ /g, "-").replace(/[^\w-]+/g, "")`. */
  function Slugify(name: string): (slug: string)
    ensures |slug| <= |name|
    ensures IsSlug(slug)
  {
    var lowered := Lowercase(name);
    LowercaseHasNoUpper(name);
    var hyphened := SpacesToHyphens(lowered);
    HyphensKeepNoUpper(lowered);
    var r := StripNonWord(hyphened);
    StripKeepsNoUpper(hyphened);
    r
  }

  predicate NoUpper(s: string) { forall i :: 0 <= i < |s| ==> !IsUpper(s[i]) }

  lemma {:induction false} LowercaseHasNoUpper(s: string)
    ensures NoUpper(Lowercase(s))
  {
    if s != [] {
      LowercaseHasNoUpper(s[1..]);
      assert Lowercase(s) == [LowerAscii(s[0])] + Lowercase(s[1..]);
    }
  }

  lemma {:induction false} HyphensKeepNoUpper(s: string)
    requires NoUpper(s)
    ensures NoUpper(SpacesToHyphens(s))
  {
    if s != [] {
      HyphensKeepNoUpper(s[1..]);
      assert SpacesToHyphens(s) == [if s[0] == ' ' then '-' else s[0]] + SpacesToHyphens(s[1..]);
    }
  }

  lemma {:induction false} StripKeepsNoUpper(s: string)
    requires NoUpper(s)
    ensures NoUpper(StripNonWord(s))
  {
    if s != [] {
      StripKeepsNoUpper(s[1..]);
      assert StripNonWord(s) == (if IsKept(s[0]) then [s[0]] else []) + StripNonWord(s[1..]);
    }
  }

  /** What the three chained stages do to one character: a space becomes `-`, a kept
      character is lowered, anything else disappears. */
  function SlugOfChar(c: char): string {
    if c == ' ' then "-" else if IsKept(c) then [LowerAscii(c)] else ""
  }

  /** A one-pass reference definition of the slug, character by character. */
  function SlugByChar(name: string): string {
    if name == [] then [] else SlugOfChar(name[0]) + SlugByChar(name[1..])
  }

  /** The three chained replacements are the one-pass character rule. */
  lemma {:induction false} SlugifyIsCharwise(name: string)
    ensures Slugify(name) == SlugByChar(name)
  {
    if name != [] {
      SlugifyIsCharwise(name[1..]);
      var c := name[0];
      assert Lowercase(name) == [LowerAscii(c)] + Lowercase(name[1..]);
      var l := Lowercase(name);
      assert l[1..] == Lowercase(name[1..]);
      assert SpacesToHyphens(l) == [if l[0] == ' ' then '-' else l[0]] + SpacesToHyphens(l[1..]);
      var h := SpacesToHyphens(l);
      assert h[1..] == SpacesToHyphens(Lowercase(name[1..]));
      assert StripNonWord(h) == (if IsKept(h[0]) then [h[0]] else []) + StripNonWord(h[1..]);
    }
  }

  /** A string already made of slug characters is its own slug. */
  lemma {:induction false} SlugOfSlugIsItself(s: string)
    requires IsSlug(s)
    ensures Slugify(s) == s
  {
    SlugifyIsCharwise(s);
    SlugByCharOfSlug(s);
  }

  lemma {:induction false} SlugByCharOfSlug(s: string)
    requires IsSlug(s)
    ensures SlugByChar(s) == s
  {
    if s != [] {
      assert IsSlug(s[1..]) by {
        forall i | 0 <= i < |s[1..]| ensures IsSlugChar(s[1..][i]) { assert s[1..][i] == s[i + 1]; }
      }
      SlugByCharOfSlug(s[1..]);
      assert IsSlugChar(s[0]);
      assert SlugOfChar(s[0]) == [s[0]];
      assert s == [s[0]] + s[1..];
    }
  }

  /** Deriving a slug twice gives the same slug as deriving it once. */
  lemma SlugifyIdempotent(name: string)
    ensures Slugify(Slugify(name)) == Slugify(name)
  {
    SlugOfSlugIsItself(Slugify(name));
  }

  lemma SlugByCharCons(c: char, rest: string)
    ensures SlugByChar([c] + rest) == SlugOfChar(c) + SlugByChar(rest)
  {
    assert ([c] + rest)[1..] == rest;
  }

  /** The slug of a concatenation is the concatenation of the slugs. */
  lemma {:induction false} SlugByCharAppend(a: string, b: string)
    ensures SlugByChar(a + b) == SlugByChar(a) + SlugByChar(b)
  {
    if a != [] {
      assert (a + b)[1..] == a[1..] + b;
      SlugByCharAppend(a[1..], b);
    } else {
      assert a + b == b;
    }
  }

  lemma SlugOfGold()
    ensures SlugByChar("Gold") == "gold"
  {
    SlugByCharCons('d', "");
    SlugByCharCons('l', "d");
    SlugByCharCons('o', "ld");
    SlugByCharCons('G', "old");
  }

  lemma SlugOfTest()
    ensures SlugByChar("Test") == "test"
  {
    SlugByCharCons('t', "");
    SlugByCharCons('s', "t");
    SlugByCharCons('e', "st");
    SlugByCharCons('T', "est");
  }

  lemma SlugOfSpaceRing()
    ensures SlugByChar(" Ring") == "-ring"
  {
    SlugByCharCons('g', "");
    SlugByCharCons('n', "g");
    SlugByCharCons('i', "ng");
    SlugByCharCons('R', "ing");
    SlugByCharCons(' ', "Ring");
  }

  lemma SlugOfSpaceHashOne()
    ensures SlugByChar(" #1") == "-1"
  {
    SlugByCharCons('1', "");
    SlugByCharCons('#', "1");
    SlugByCharCons(' ', "#1");
  }

  // The literal is passed as a parameter pinned by `requires`, which keeps the solver from
  // unfolding the slug functions over every literal in one proof.
  lemma SlugByCharGoldSpaceRing(name: string)
    requires name == "Gold Ring"
    ensures SlugByChar(name) == "gold-ring"
  {
    SlugOfGold();
    SlugOfSpaceRing();
    SlugByCharAppend("Gold", " Ring");
    assert "Gold" + " Ring" == name;
  }

  // As above: the prefix and the name are parameters so that their literals stay apart.
  lemma SlugByCharGoldRing(prefix: string, name: string)
    requires prefix == "Gold Ring" && name == "Gold Ring #1"
    ensures SlugByChar(name) == "gold-ring-1"
  {
    SlugByCharGoldSpaceRing(prefix);
    SlugOfSpaceHashOne();
    SlugByCharAppend(prefix, " #1");
    assert prefix + " #1" == name;
  }

  lemma SlugByCharTestRing(name: string)
    requires name == "Test Ring"
    ensures SlugByChar(name) == "test-ring"
  {
    SlugOfTest();
    SlugOfSpaceRing();
    SlugByCharAppend("Test", " Ring");
    assert "Test" + " Ring" == name;
  }

  /** "Gold Ring #1" gives "gold-ring-1": spaces become hyphens and the '#' disappears. */
  lemma SlugExampleGoldRing(name: string)
    requires name == "Gold Ring #1"
    ensures Slugify(name) == "gold-ring-1"
  {
    SlugifyIsCharwise(name);
    SlugByCharGoldRing("Gold Ring", name);
  }

  /** "Test Ring" gives "test-ring". */
  lemma SlugExampleTestRing(name: string)
    requires name == "Test Ring"
    ensures Slugify(name) == "test-ring"
  {
    SlugifyIsCharwise(name);
    SlugByCharTestRing(name);
  }

  // ---------------------------------------------------------------- discount

  /** `calculatedDiscount`: `Math.ceil(((price - discountedPrice) / price) * 100)`, over exact
      rationals. The handler only calls it once `price > 0` holds. */
  function CalculatedDiscount(price: real, discountedPrice: real): (r: int)
    requires price > 0.0
    ensures (r - 1) as real < (price - discountedPrice) / price * 100.0 <= r as real
    ensures 0.0 <= discountedPrice <= price ==> 0 <= r <= 100
    ensures discountedPrice == 0.0 ==> r == 100
    ensures discountedPrice == price ==> r == 0
    ensures discountedPrice > price ==> r <= 0
  {
    var x := (price - discountedPrice) / price * 100.0;
    DiscountFractionBounds(price, discountedPrice);
    Ceil(x)
  }

  lemma DiscountFractionBounds(price: real, d: real)
    requires price > 0.0
    ensures 0.0 <= d <= price ==> 0.0 <= (price - d) / price * 100.0 <= 100.0
    ensures d == 0.0 ==> (price - d) / price * 100.0 == 100.0
    ensures d == price ==> (price - d) / price * 100.0 == 0.0
    ensures d > price ==> (price - d) / price * 100.0 < 0.0
  {
    var q := (price - d) / price;
    assert q * price == price - d;
    if 0.0 <= d <= price {
      assert q >= 0.0;
    }
    if d > price {
      assert q < 0.0;
    }
  }

  lemma DiscountExample()
    ensures CalculatedDiscount(100.0, 75.0) == 25
    ensures CalculatedDiscount(200.0, 150.0) == 25
  {
  }

  // ---------------------------------------------------------------- request and record

  /** The multipart submission, after `request.formData()`. A numeric entry that was not sent
      is `Null`, as `formData.get` returns `null`. */
  datatype ProductForm = ProductForm(
    images: seq<UploadFile>,
    name: FormText,
    description: FormText,
    price: NumField,
    discountPrice: NumField,
    category: FormText,
    subCategory: FormText,
    collections: seq<string>,
    metal: FormText,
    stock: FormText,
    mode: FormText,
    sku: FormText,
    video: FormEntry)

  /** The denormalised category value `{ name: subCategory, type: category }`. */
  datatype CategoryRef = CategoryRef(name: string, parentType: string)

  datatype ProductRecord = ProductRecord(
    sku: FormText,
    images: seq<Url>,
    name: string,
    description: FormText,
    price: NumField,
    discountPrice: NumField,
    discountPercent: int,
    category: CategoryRef,
    collectionName: seq<string>,
    metal: FormText,
    video: Option<Url>,
    stock: FormText,
    slug: string)

  datatype Collection = Products | OfflineProducts

  datatype ProductOutcome =
    | Rejected(status: int, message: string)                // 400 or 403
    | ServerError                                           // 500, from the catch block
    | Created(collection: Collection, product: ProductRecord) // 201

  /** `!imageFiles.length || !name || !price || !category || !subCategory`. */
  predicate RequiredMissing(f: ProductForm) {
    |f.images| == 0 || !Truthy(f.name) || !NumTruthy(f.price) || !Truthy(f.category) || !Truthy(f.subCategory)
  }

  /** `price <= 0 || discountPrice < 0`, with JavaScript's coercion of the entries. */
  predicate PriceRejected(price: NumField, discountPrice: NumField) {
    ToNumber(price) <= 0.0 || ToNumber(discountPrice) < 0.0
  }

  /** `vedio && vedio.type`: only a file with a non-empty MIME type is uploaded. */
  predicate HasVideo(v: FormEntry) {
    v.FileEntry? && v.file.mimeType != ""
  }

  /** `mode && mode === "offline"` picks the offline collection; anything else the online one. */
  function Target(mode: FormText): (c: Collection)
    ensures c == OfflineProducts <==> mode == Text("offline")
  {
    if Truthy(mode) && mode.text == "offline" then OfflineProducts else Products
  }

  /** Every guard of the handler passes. */
  predicate Admitted(f: ProductForm, categories: set<string>) {
    f.name.Text? && !RequiredMissing(f) && f.subCategory.text in categories
    && !PriceRejected(f.price, f.discountPrice)
  }

  /** `Promise.all(imageFiles.map(upload))`: one URL per file, in the order of the files; it
      fails as soon as any single upload fails. */
  function UploadAll(upload: Uploader, prefix: string, files: seq<UploadFile>): (r: Option<seq<Url>>)
    ensures r.Some? <==> forall i :: 0 <= i < |files| ==> upload(prefix, files[i]).Some?
    ensures r.Some? ==> |r.value| == |files|
    ensures r.Some? ==> forall i :: 0 <= i < |files| ==> r.value[i] == upload(prefix, files[i]).value
  {
    if files == [] then Some([])
    else
      match upload(prefix, files[0])
      case None => None
      case Some(u) =>
        match UploadAll(upload, prefix, files[1..])
        case None => None
        case Some(rest) => Some([u] + rest)
  }

  /** The record handed to `new Product({...})` or `new OfflineProduct({...})`. */
  function NewRecord(f: ProductForm, images: seq<Url>, video: Option<Url>): (p: ProductRecord)
    requires f.name.Text? && f.subCategory.Text? && f.category.Text? && ToNumber(f.price) > 0.0
  {
    ProductRecord(
      sku := f.sku,
      images := images,
      name := f.name.text,
      description := f.description,
      price := f.price,
      discountPrice := f.discountPrice,
      discountPercent := CalculatedDiscount(ToNumber(f.price), ToNumber(f.discountPrice)),
      category := CategoryRef(f.subCategory.text, f.category.text),
      collectionName := f.collections,
      metal := f.metal,
      video := video,
      stock := f.stock,
      slug := Slugify(f.name.text))
  }

  /** `POST /api/products`. `categories` holds the names of the existing Category documents,
      `upload` is object storage and `save(c, p)` says whether writing `p` to `c` succeeds. */
  method PostProduct(f: ProductForm, categories: set<string>, upload: Uploader,
                     save: (Collection, ProductRecord) -> bool)
    returns (out: ProductOutcome)
    // An absent name throws at the slug expression, before any guard.
    ensures f.name.NoText? ==> out == ServerError
    // Guard 1: required fields.
    ensures f.name.Text? && RequiredMissing(f) ==> out == Rejected(400, MsgRequired)
    // Guard 2, reached only past guard 1: the sub-category must exist.
    ensures f.name.Text? && !RequiredMissing(f) && f.subCategory.text !in categories
            ==> out == Rejected(403, MsgInvalidCategory)
    // Guard 3, reached only past guard 2: the price range.
    ensures f.name.Text? && !RequiredMissing(f) && f.subCategory.text in categories
            && PriceRejected(f.price, f.discountPrice)
            ==> out == Rejected(403, MsgInvalidPrice)
    // Nothing is created unless every guard passes and every upload and the write succeed.
    ensures out.Created? ==> Admitted(f, categories)
    ensures out.Created? ==> UploadAll(upload, ImagePrefix, f.images).Some?
    ensures out.Created? && HasVideo(f.video) ==> upload(VideoPrefix, f.video.file).Some?
    ensures out.Created? ==> save(out.collection, out.product)
    // Where the new record goes and what it holds.
    ensures out.Created? ==> out.collection == Target(f.mode)
    ensures out.Created? ==> |out.product.images| == |f.images|
    ensures out.Created? ==>
              forall i :: 0 <= i < |f.images| ==> out.product.images[i] == upload(ImagePrefix, f.images[i]).value
    ensures out.Created? ==>
              out.product.video == (if HasVideo(f.video) then upload(VideoPrefix, f.video.file) else None)
    ensures out.Created? ==> out.product.slug == Slugify(f.name.text)
    ensures out.Created? ==> out.product.category == CategoryRef(f.subCategory.text, f.category.text)
    ensures out.Created? ==>
              out.product.discountPercent == CalculatedDiscount(ToNumber(f.price), ToNumber(f.discountPrice))
    ensures out.Created? ==>
              && out.product.name == f.name.text && out.product.price == f.price
              && out.product.discountPrice == f.discountPrice && out.product.sku == f.sku
              && out.product.description == f.description && out.product.collectionName == f.collections
              && out.product.metal == f.metal && out.product.stock == f.stock
    // Past the guards, the only failures are server errors.
    ensures Admitted(f, categories) ==> out.Created? || out == ServerError
    ensures Admitted(f, categories) && UploadAll(upload, ImagePrefix, f.images).Some?
            && (HasVideo(f.video) ==> upload(VideoPrefix, f.video.file).Some?)
            && out == ServerError
            ==> !save(Target(f.mode), NewRecord(f, UploadAll(upload, ImagePrefix, f.images).value,
                                               if HasVideo(f.video) then upload(VideoPrefix, f.video.file) else None))
  {
    if f.name.NoText? {
      return ServerError;
    }
    var slug := Slugify(f.name.text);
    if RequiredMissing(f) {
      return Rejected(400, MsgRequired);
    }
    if f.subCategory.text !in categories {
      return Rejected(403, MsgInvalidCategory);
    }
    if PriceRejected(f.price, f.discountPrice) {
      return Rejected(403, MsgInvalidPrice);
    }
    var images := UploadAll(upload, ImagePrefix, f.images);
    if images.None? {
      return ServerError;
    }
    var videoUrl: Option<Url> := None;
    if HasVideo(f.video) {
      var u := upload(VideoPrefix, f.video.file);
      if u.None? {
        return ServerError;
      }
      videoUrl := u;
    }
    var target := Target(f.mode);
    var product := NewRecord(f, images.value, videoUrl);
    assert product.slug == slug;
    if !save(target, product) {
      return ServerError;
    }
    return Created(target, product);
  }

  /** A submission with no mode, one image, name "Test Ring", price 200, discount price 150,
      category "metal" and an existing sub-category is stored online with slug "test-ring",
      discount percentage 25 and one image, whenever storage and the write succeed. */
  method TestRingSubmission(name: string, image: UploadFile, subCategory: string, categories: set<string>,
                            upload: Uploader, save: (Collection, ProductRecord) -> bool)
    returns (out: ProductOutcome)
    requires name == "Test Ring"
    requires subCategory != "" && subCategory in categories
    requires upload(ImagePrefix, image).Some?
    requires forall c, p :: save(c, p)
    ensures out.Created? && out.collection == Products
    ensures out.product.slug == "test-ring" && out.product.discountPercent == 25
    ensures out.product.images == [upload(ImagePrefix, image).value]
  {
    SlugExampleTestRing(name);
    var f := ProductForm(
      images := [image], name := Text(name), description := NoText,
      price := Num(200.0), discountPrice := Num(150.0),
      category := Text("metal"), subCategory := Text(subCategory), collections := [],
      metal := NoText, stock := NoText, mode := NoText, sku := NoText, video := NoEntry);
    out := PostProduct(f, categories, upload, save);
  }

  /** A price sent as the text "0" is truthy: it passes the required-field guard and meets
      the price guard only if the sub-category exists; otherwise the category guard answers. */
  method ZeroPriceSubmission(f: ProductForm, categories: set<string>,
                             upload: Uploader, save: (Collection, ProductRecord) -> bool)
    returns (out: ProductOutcome)
    requires f.price == Num(0.0)
    requires |f.images| > 0 && Truthy(f.name) && Truthy(f.category) && Truthy(f.subCategory)
    ensures !RequiredMissing(f)
    ensures f.subCategory.text in categories ==> out == Rejected(403, MsgInvalidPrice)
    ensures f.subCategory.text !in categories ==> out == Rejected(403, MsgInvalidCategory)
  {
    out := PostProduct(f, categories, upload, save);
  }
}
