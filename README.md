# Catalog administration rules, modelled in Dafny

This project models the decision rules of a small e-commerce catalog administration back end
and its product edit form:

- **Product creation** (`POST /api/products`): the slug derived from the product name, the
  server-side discount percentage, the fail-fast validation sequence (required fields, then
  the sub-category lookup, then the price range), the order-preserving upload of the images,
  the optional video upload, the denormalised `{ name: subCategory, type: category }`
  category value, and the choice between the `Product` and `OfflineProduct` collections.
  The handler is a method with early returns (`ProductsRoute.PostProduct`). The existing
  category names, object storage and the database write are parameters.
- **Slide creation** (`POST /api/slides`): the two guards, modelled as literally written.
  The image-type guard compares against `"/image"`, so real MIME types never trip it. The
  field guard fires only when *both* links and section are missing. After the guards come
  the two banner uploads and the document creation. It is a pure function from the inputs
  to an outcome (`SlidesRoute.CreateSlide`).
- **User schema**: the name and e-mail regular expressions as hand-written predicates, the
  required fields, the `false` defaults of `isVerified` and `isAdmin`, and the unique index
  on `email`. The index is modelled as insertion into a sequence that keeps e-mails distinct.
- **Product edit form**: the displayed discount percentage (`toFixed(2)` of an unrounded
  fraction, where the server takes the ceiling), the validation schema, and the component
  state. The state is a class (`EditForm.EditProductForm`) with the option list, the filtered
  sub-categories, the selected parent and sub-category, and the form values. Its handlers are
  methods, and an invariant ties the filtered list to the selected parent.

Modules: `JsValues` (form entries, truthiness, coercion to numbers, `Math.ceil`,
`toFixed(2)`, ASCII character classes), `ProductsRoute`, `SlidesRoute`, `UserModel`,
`WordMatch` (the case-insensitive whole-word test and `categories.filter`), `EditForm` and
`ClientServerRules` (lemmas on where the client and server rules differ).

Behaviour worth knowing, all proved about the model:

- A missing `name` throws at the slug expression, before any guard, and so yields a 500
  rather than the 400 "Please fill required fields".
- A price sent as the text "0" is truthy. It passes the required-field guard. When the
  sub-category exists it is then rejected by the price guard with a 403; otherwise the
  category guard answers first, with its own 403.
- A discount price above the price is accepted, and the stored percentage is then at most 0.
- A product created without a discount price is saved with `null` and a 100 percent
  discount. The form coerces that `null` to 0 as well and shows "100.00".
- The form's category holds a plain string after loading, and a string fails
  `Yup.object()`. So the loaded form passes validation only after a sub-category is chosen.
- `formik.setValues` after loading replaces every value: `subCategory` becomes undefined,
  and the product's category type lands under a stray `subCategories` key.
- When the price or the discount price is typed, the percentage is computed from the
  values of the render in which the change happened. It therefore reflects the entries
  from before that change.

Further behaviour of the code the model keeps:

- The product handler never checks that the discount price is at most the price.
- The slug expression runs before the required-field check, so an absent name is a server
  error and not a validation error.
- The field guard of the slide handler rejects only when both fields are absent.

## Model

| member | source | states |
|---|---|---|
| `ProductsRoute.Slugify` | src/app/api/products/route.js:42 | the slug has only characters from `[a-z0-9_-]` and is never longer than the name |
| `ProductsRoute.Lowercase` | src/app/api/products/route.js:42 | `toLowerCase()` keeps the length and lowers each character in place |
| `ProductsRoute.SpacesToHyphens` | src/app/api/products/route.js:42 | `replace(/ /g, "-")` keeps the length and turns exactly the spaces into `-`, leaving every other character where it was |
| `ProductsRoute.StripNonWord` | src/app/api/products/route.js:42 | after `replace(/[^\w-]+/g, "")` only characters of `[A-Za-z0-9_-]` remain, and the result is no longer than the input |
| `ProductsRoute.StripNonWordKeepsKept` | src/app/api/products/route.js:42 | `replace(/[^\w-]+/g, "")` removes only characters outside `[A-Za-z0-9_-]`: each kept character occurs in the result exactly as often as in the input, and nothing else does |
| `ProductsRoute.SlugifyIsCharwise` | src/app/api/products/route.js:42 | the three chained replacements equal the one-pass rule: a space becomes `-`, a character of `[A-Za-z0-9_-]` is lowered, every other character is removed |
| `ProductsRoute.SlugByCharAppend` | src/app/api/products/route.js:42 | the slug of a concatenation is the concatenation of the slugs |
| `ProductsRoute.SlugOfSlugIsItself` | src/app/api/products/route.js:42 | a string made only of slug characters is its own slug |
| `ProductsRoute.SlugifyIdempotent` | src/app/api/products/route.js:42 | deriving the slug of a slug gives the same slug |
| `ProductsRoute.SlugExampleGoldRing` | src/app/api/products/route.js:42 | "Gold Ring #1" gives "gold-ring-1": spaces become hyphens and the `#` is removed |
| `ProductsRoute.SlugExampleTestRing` | src/app/api/products/route.js:42 | "Test Ring" gives "test-ring" |
| `JsValues.Ceil` | src/app/api/products/route.js:9 | `Math.ceil(x)` is the least integer not below x |
| `ProductsRoute.CalculatedDiscount` | src/app/api/products/route.js:7-10 | the result is the ceiling of (price − discountPrice)·100/price; it lies in 0..100 when 0 ≤ discountPrice ≤ price; it is 100 for a zero discount price, 0 when the two are equal, and at most 0 when the discount price exceeds the price |
| `ProductsRoute.DiscountExample` | src/app/api/products/route.js:7-10 | price 100 with discount price 75, and price 200 with 150, both give 25 |
| `ProductsRoute.RequiredMissing` | src/app/api/products/route.js:46 | the required-field guard: no image, or a falsy name, price, category or sub-category, where the text "0" is truthy and the empty text is not |
| `ProductsRoute.PriceRejected` | src/app/api/products/route.js:54 | the price guard with JavaScript coercion: the price is at most 0 (an absent price counts as 0) or the discount price is below 0 (an absent or empty one counts as 0 and passes) |
| `ProductsRoute.HasVideo` | src/app/api/products/route.js:68 | the video is uploaded only for a file entry whose type is non-empty |
| `ProductsRoute.NewRecord` | src/app/api/products/route.js:77-110 | the record the handler saves: the uploaded URLs, the derived slug and percentage, category `{name: subCategory, type: category}`, the collections and the video URL; the other fields as sent |
| `ProductsRoute.Target` | src/app/api/products/route.js:76 | the offline collection is chosen exactly when mode is the text "offline"; any other or absent mode chooses the online one |
| `ProductsRoute.UploadAll` | src/app/api/products/route.js:58-66 | the uploads succeed exactly when every single upload succeeds, and then there is one URL per file, in the files' order |
| `ProductsRoute.PostProduct` | src/app/api/products/route.js:24-118 | absent name gives 500; then missing images/name/price/category/subCategory gives 400 whatever the categories; then an unknown sub-category gives 403; then price ≤ 0 or discount price < 0 gives 403; a record is created only when every guard, upload and the write succeed, in `Target(mode)`, with the uploaded image URLs in file order, the video URL only for a typed video file, the derived slug and percentage, category `{name: subCategory, type: category}` and the other fields as sent; past the guards the only failure is a 500 |
| `ProductsRoute.TestRingSubmission` | src/app/api/products/route.js:24-118 | no mode, one image, "Test Ring", price 200, discount price 150 and an existing sub-category give a record in the online collection with slug "test-ring", percentage 25 and one image |
| `ProductsRoute.ZeroPriceSubmission` | src/app/api/products/route.js:46-56 | a price sent as the text "0", with images, name, category and sub-category present, passes the required-field guard; it gets the 403 "Invalid price or discounted price values" when the sub-category exists and the 403 "Invalid Category" otherwise |
| `SlidesRoute.BannerTypeCheck` | src/app/api/slides/route.js:17 | `banner?.type.startsWith("/image")` on one entry: false for a missing entry, an exception for a text entry, the prefix test for a file |
| `SlidesRoute.FieldsMissing` | src/app/api/slides/route.js:21 | `!links && !section`: both fields are absent or empty |
| `SlidesRoute.ImageTypeGuard` | src/app/api/slides/route.js:17 | the guard is true exactly for two files whose types both start with "/image"; it throws exactly when the desktop banner is a text entry, or when the desktop check is true and the mobile banner is a text entry |
| `SlidesRoute.CreateSlide` | src/app/api/slides/route.js:8-40 | "Invalid image type" exactly when the image guard is true; "All fields are required" exactly when the image guard is false and links and section are both falsy; a slide is added exactly when both guards pass, both banners are files, both uploads and the write succeed, and it holds the desktop URL (prefix "slide/desktop/"), the mobile URL (prefix "slide/mobile/") and links and section unchanged |
| `SlidesRoute.RealMimeTypesPassImageGuard` | src/app/api/slides/route.js:17-19 | when either banner's type does not start with '/', as with "image/png", the "Invalid image type" response never occurs |
| `SlidesRoute.OneFieldSuffices` | src/app/api/slides/route.js:17-23 | with two real image files and either links or section present, neither 400 occurs |
| `SlidesRoute.MissingDesktopBannerIsServerError` | src/app/api/slides/route.js:17-38 | a missing desktop banner passes both guards and ends in a 500 at the buffer conversion |
| `SlidesRoute.MissingMobileBannerIsServerError` | src/app/api/slides/route.js:17-38 | a missing mobile banner with a desktop file passes both guards and ends in a 500 |
| `UserModel.IsValidName` | src/models/userModel.js:8-11 | `/^[a-zA-Z ]{2,}$/`: at least two characters, each an ASCII letter or a space |
| `UserModel.NameExamples` | src/models/userModel.js:8-11 | two spaces and "Jo" are valid names; "J" and "Ann-Marie" are not |
| `UserModel.IsValidEmail` | src/models/userModel.js:20-23 | splitting at the first '@' and the last '.' accepts exactly the strings the e-mail pattern accepts: a non-empty local part of `[A-Za-z0-9._%+-]`, '@', a non-empty domain of `[A-Za-z0-9.-]`, '.', and a final label of at least two ASCII letters |
| `UserModel.SplitIsFirstAtLastDot` | src/models/userModel.js:21 | any split the pattern allows is at the first '@' and the last '.' |
| `UserModel.NoAtOutsideSplit` | src/models/userModel.js:21 | in a matching split, the only '@' is the separating one |
| `UserModel.ValidEmailHasOneAt` | src/models/userModel.js:21 | a valid e-mail holds exactly one '@' |
| `UserModel.EmailExamples` | src/models/userModel.js:21 | "a@b.co" is valid; "a@b.c" and "a@@b.co" are not |
| `UserModel.Errors` | src/models/userModel.js:4-34 | the first failing validator per path: `Required` for an absent or empty name, email or password and an absent phone, otherwise `InvalidFormat` when the name or e-mail validator fails |
| `UserModel.NewUser` | src/models/userModel.js:3-60 | a document is accepted exactly when name, email, phone and password are present and non-empty and name and email pass their validators; a refusal reports exactly the failing paths, at least one; `isVerified` and `isAdmin` are false unless given true; the name, email, phone, password, addresses, token, expiry and OTP fields are kept as given |
| `UserModel.ErrorPathsAreFailingPaths` | src/models/userModel.js:4-34 | the paths of the reported errors are exactly the paths whose rule fails |
| `UserModel.MissingRequiredFieldRefused` | src/models/userModel.js:4-34 | a document missing name, email, phone or password is refused with that field reported as required |
| `UserModel.Insert` | src/models/userModel.js:18 | insertion fails exactly when the e-mail is taken, otherwise appends, and keeps e-mails unique |
| `UserModel.Register` | src/models/userModel.js:15-18 | a registration validates first and then inserts: it is refused with exactly the validation errors when the document is invalid, is a duplicate exactly when the document is valid and its e-mail is taken, and otherwise appends the new user; it keeps e-mails unique |
| `UserModel.RegisterAllKeepsEmailsUnique` | src/models/userModel.js:18 | any series of registrations from a duplicate-free collection leaves no two users with the same e-mail |
| `WordMatch.MatchFrom` | src/components/EditProductForm.jsx:108-111 | the scan from position i succeeds exactly when `\bp\b` matches, ignoring case, at some position from i on |
| `WordMatch.Matches` | src/components/EditProductForm.jsx:108-111 | the test succeeds exactly when the parent occurs case-insensitively in the name with a word boundary on both sides |
| `WordMatch.MatchExamples` | src/components/EditProductForm.jsx:108-111 | "ring" matches "Gold Ring" but not "Earrings" |
| `WordMatch.FilterByWord` | src/components/EditProductForm.jsx:110-112 | the filtered list holds exactly the matching categories, each as often as in the list, in their original order, so it is a subset of the list |
| `EditForm.CalculateDiscountPercent` | src/components/EditProductForm.jsx:13-14 | 0 when price ≤ 0; otherwise result·price = (price − discountPrice)·100, with no rounding; within 0..100 when 0 ≤ discountPrice ≤ price |
| `JsValues.ToFixed2` | src/components/EditProductForm.jsx:79 | the number written by `toFixed(2)` is the multiple of 1/100 nearest to x; at an exact half-hundredth it is the neighbour of larger magnitude |
| `JsValues.ToFixed2OfWhole` | src/components/EditProductForm.jsx:79 | `toFixed(2)` writes a whole number unchanged |
| `EditForm.DisplayedPercent` | src/components/EditProductForm.jsx:76-79 | 0 unless the price is a positive number; "NaN" exactly when the price is positive and the discount price undefined; "100.00" for a positive price and a null discount price, which coerces to 0; otherwise a two-decimal number within 0.005 of the exact percentage |
| `EditForm.LoadedValues` | src/components/EditProductForm.jsx:70-85 | the object given to `formik.setValues`: the product's fields, the two-decimal percentage, the category's name as a plain string, its type under `subCategories`, the collections joined with ", ", and `subCategory` undefined |
| `EditForm.NameRule` | src/components/EditProductForm.jsx:31-33 | the name is present and at least two characters long |
| `EditForm.RequiredText` | src/components/EditProductForm.jsx:34-35 | SKU and slug are present and non-empty |
| `EditForm.PositiveNumber` | src/components/EditProductForm.jsx:36-41 | price and discount price are numbers above 0; the empty entry is not a number |
| `EditForm.StockRule` | src/components/EditProductForm.jsx:42-45 | the stock is a whole number of at least 0 |
| `EditForm.CategoryRule` | src/components/EditProductForm.jsx:46 | the category is an object, not a plain string |
| `EditForm.MetalRule` | src/components/EditProductForm.jsx:47-49 | the metal is one of silver, gold, platinum, rose gold |
| `EditForm.ClientValid` | src/components/EditProductForm.jsx:30-50 | every rule of the validation schema holds |
| `EditForm.LoadedFormFailsValidation` | src/components/EditProductForm.jsx:70-85 | after loading, the category is the plain string `data.category.name`, and the values fail validation |
| `EditForm.ZeroDiscountPriceFailsValidation` | src/components/EditProductForm.jsx:39-41 | a zero discount price fails the client rules |
| `EditForm.InitialValuesFailValidation` | src/components/EditProductForm.jsx:17-50 | the initial values fail validation |
| `EditForm.EditProductForm.constructor` | src/components/EditProductForm.jsx:8-29 | the lists are empty, parent and sub-category are undefined, the values are the initial ones |
| `EditForm.EditProductForm.LoadProduct` | src/components/EditProductForm.jsx:66-89 | the values are replaced by the loaded product's, with the category a plain name, unless the category or the collections are absent, when nothing changes |
| `EditForm.EditProductForm.LoadCategories` | src/components/EditProductForm.jsx:91-99 | the option list is replaced and the invariant still holds |
| `EditForm.EditProductForm.SelectCategory` | src/components/EditProductForm.jsx:105-115 | the parent is recorded and the sub-category list becomes exactly the categories whose name holds it as a whole word, in order |
| `EditForm.EditProductForm.SelectSubCategory` | src/components/EditProductForm.jsx:117-126 | the category becomes `{name, type: last selected parent}`, an object, and no other value changes |
| `EditForm.EditProductForm.EditPrice` | src/components/EditProductForm.jsx:152-160 | the price is stored and the percentage is computed from the price and discount price from before the change |
| `EditForm.EditProductForm.EditDiscountPrice` | src/components/EditProductForm.jsx:152-160 | the discount price is stored and the percentage is computed from the entries from before the change |
| `EditForm.EditProductForm.Submit` | src/components/EditProductForm.jsx:30-63 | the values are sent exactly when they pass every rule of the schema |
| `ClientServerRules.ZeroDiscountPriceDivergence` | src/components/EditProductForm.jsx:39-41 | a zero discount price passes the server's price guard (`route.js` line 54), and the stored percentage is then 100, but it fails the form's rules |
| `ClientServerRules.DiscountAbovePriceAccepted` | src/app/api/products/route.js:54-56 | a discount price above the price passes the server guard, with a percentage of at most 0, and passes the form's price rules too |
| `ClientServerRules.CeilingVersusTwoDecimals` | src/components/EditProductForm.jsx:13-14 | the stored percentage is the ceiling of the exact one shown by the form: not below it and less than one above it; the form displays `toFixed(2)` of the exact one |
| `ClientServerRules.RoundingExample` | src/components/EditProductForm.jsx:76-79 | price 3 and discount price 2: the form shows 33.33, the server stores 34 |
| `ClientServerRules.NullDiscountPriceIsFullDiscount` | src/components/EditProductForm.jsx:13-14 | a discount price that was not sent is saved as `null`: it passes the server's price guard (`route.js` line 54) with 100 percent stored, and the form, coercing `null` to 0, shows "100.00"; only an undefined discount price shows "NaN" |

## Left out

- Floating point: prices and percentages are exact rationals. `toFixed(2)` is modelled as the rational it denotes, rounding halves away from zero, and not as a string or the binary value's rounding. Visible effect: `Math.ceil` turns a rounding error of one unit in the last place into a whole point. In IEEE double arithmetic `((100 - 93) / 100) * 100` is 7.000000000000001, so the program stores 8 where `CalculatedDiscount` gives 7; price 50 with discount price 43 stores 15 against 14.
- ClientServerRules.CeilingVersusTwoDecimals: stated over exact rationals. The program's stored percentage can be a full point above the exact one (8 against 7 for 100/93), so the strict bound `< exact + 1` does not hold for the program; `exact <=` still does.
- Numeric form entries are taken as the numbers their text denotes. Text that is not a number (coercing to NaN, which passes `price <= 0`) is not modelled.
- Entries of the wrong kind are not modelled: a file sent as `name` or `price`, or a text entry among `images`. The exceptions these throw are not modelled either.
- `CalculatedDiscount` requires price > 0. At price 0 JavaScript gives NaN or ±Infinity, but the handler only calls it past the price guard.
- Object storage, `connectToDB`, `request.formData()`, `Category.findOne`, `save` and `Home.create` are foreign I/O. Uploads are a function that may fail, the category lookup is a set of names, and the writes are predicates saying whether they succeed. A failing lookup or connection is not modelled.
- The time-stamped object names (`Date.now()`) depend on the clock and are left to the uploader.
- `Promise.all` concurrency: uploads are an order-preserving map that fails if any upload fails. That the other uploads still run, and that uploaded assets are orphaned after a later failure, is not modelled.
- The `console.log`/`console.error` calls, the 500 response bodies (`error.message` passed through), and HTTP framing beyond a status and a message.
- The slide handler's "Slide not added" 500 for a falsy `Home.create` result is folded into the catch-block 500: a failing create is one `ServerError`.
- The Product and OfflineProduct schemas (casting, enum checks on `metal`) are not part of this model; their effect is the `save` parameter.
- `toLowerCase` is ASCII only. Non-ASCII characters whose lower case is ASCII (such as the Kelvin sign) are not modelled.
- WordMatch.SameLetter: the sub-category match folds case for ASCII letters only. Without the `u` flag, the regex's `i` flag also pairs non-ASCII letters such as 'é' and 'É'.
- The sub-category regex treats the parent as literal text; a parent holding regular-expression metacharacters is not modelled.
- `Yup.object()` is taken to reject every string. Some Yup versions JSON-parse a string first, so category-name text that is a JSON object is not modelled.
- The form's error messages, touched/blur state, `loading` flag, alerts, `onClose`, the axios requests and the React rendering are left out. React state updates are applied at once.
- Typing into the name, SKU, slug and stock inputs and choosing a metal store the entered value through formik's `handleChange`. These plain field updates have no separate methods in the model.
- The `GET /api/products` handler (a pass-through read) and the route's body-size configuration.
- User schema: Mongoose type casting (e.g. of `phone` from text), the `timestamps`, password hashing, and the auth flows that change tokens are outside the model. The unique index is modelled on one sequence of users; concurrent inserts are not modelled.
