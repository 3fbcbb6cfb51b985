/** The product edit form: its displayed discount percentage, its validation rules, and the
    component state that its handlers update (the category list, the filtered sub-category
    list, the selected parent and sub-category, and the form values). */
module EditForm {
  import opened JsValues
  import opened WordMatch

  const Metals: seq<string> := ["silver", "gold", "platinum", "rose gold"]

  // ---------------------------------------------------------------- discount shown

  /** `calculateDiscountPercent`: `price > 0 ? ((price - discountPrice) / price) * 100 : 0`,
      without any rounding. */
  function CalculateDiscountPercent(price: real, discountPrice: real): (r: real)
    ensures price <= 0.0 ==> r == 0.0
    ensures price > 0.0 ==> r * price == (price - discountPrice) * 100.0
    ensures price > 0.0 && 0.0 <= discountPrice <= price ==> 0.0 <= r <= 100.0
  {
    if price > 0.0 then
      var q := (price - discountPrice) / price;
      assert q * price == price - discountPrice;
      assert 0.0 <= discountPrice <= price ==> 0.0 <= q;
      q * 100.0
    else 0.0
  }

  /** The discount percentage as the form holds it: the number `toFixed(2)` writes, or "NaN". */
  datatype Percent = Shown(value: real) | NotANumber

  /** `calculateDiscountPercent(price, discountPrice).toFixed(2)` on the form's entries. An
      empty, null or undefined price fails `price > 0`; an undefined discount price makes the
      difference NaN, while an empty or null one counts as 0. */
  function DisplayedPercent(price: NumField, discountPrice: NumField): (r: Percent)
    ensures !(price.Num? && price.value > 0.0) ==> r == Shown(0.0)
    ensures r == NotANumber <==> price.Num? && price.value > 0.0 && discountPrice.NoNumber?
    ensures r.Shown? && price.Num? ==>
              -0.005 <= r.value - CalculateDiscountPercent(price.value, ToNumber(discountPrice)) <= 0.005
    // two decimals
    ensures r.Shown? ==> (r.value * 100.0).Floor as real == r.value * 100.0
    // a null discount price is a full discount: "100.00"
    ensures price.Num? && price.value > 0.0 && discountPrice.Null? ==> r == Shown(100.0)
  {
    if !(price.Num? && price.value > 0.0) then Shown(0.0)
    else if discountPrice.NoNumber? then NotANumber
    else
      var exact := CalculateDiscountPercent(price.value, ToNumber(discountPrice));
      assert discountPrice.Null? ==> exact == 100.0;
      ToFixed2OfWhole(100);
      Shown(ToFixed2(exact))
  }

  // ---------------------------------------------------------------- values

  /** The form's `category` value: the initial `{}`, the plain name copied in at load time,
      or the `{ name, type }` object set when a sub-category is chosen. */
  datatype CategoryValue = EmptyObject | PlainName(name: string) | Composite(name: string, parentType: Option<string>)

  /** The formik values. `None` is an undefined value. `subCategories` is the key that the
      load handler writes instead of `subCategory`. */
  datatype FormValues = FormValues(
    name: Option<string>,
    sku: Option<string>,
    slug: Option<string>,
    price: NumField,
    discountPrice: NumField,
    discountPercent: Percent,
    stock: NumField,
    category: CategoryValue,
    subCategory: Option<string>,
    subCategories: Option<string>,
    collectionName: Option<string>,
    metal: Option<string>)

  const InitialValues := FormValues(
    name := Some(""), sku := Some(""), slug := Some(""),
    price := Blank, discountPrice := Blank, discountPercent := Shown(0.0), stock := Blank,
    category := EmptyObject, subCategory := Some(""), subCategories := None,
    collectionName := Some(""), metal := Some(""))

  /** The stored category of a product. */
  datatype StoredCategory = StoredCategory(name: string, parentType: string)

  /** The product as `GET /api/products/{id}` returns it; `None` is an absent field, and a
      numeric field saved as `null` is `Null`. */
  datatype ProductData = ProductData(
    name: Option<string>,
    sku: Option<string>,
    slug: Option<string>,
    price: NumField,
    discountPrice: NumField,
    stock: NumField,
    category: Option<StoredCategory>,
    collectionName: Option<seq<string>>,
    metal: Option<string>)

  function Join(parts: seq<string>, sep: string): string {
    if parts == [] then "" else if |parts| == 1 then parts[0] else parts[0] + sep + Join(parts[1..], sep)
  }

  /** The object given to `formik.setValues` once the product has loaded. It replaces all
      values, so `subCategory` becomes undefined. */
  function LoadedValues(data: ProductData): (v: FormValues)
    requires data.category.Some? && data.collectionName.Some?
  {
    FormValues(
      name := data.name, sku := data.sku, slug := data.slug,
      price := data.price, discountPrice := data.discountPrice,
      discountPercent := DisplayedPercent(data.price, data.discountPrice),
      stock := data.stock,
      category := PlainName(data.category.value.name),
      subCategory := None,
      subCategories := Some(data.category.value.parentType),
      collectionName := Some(Join(data.collectionName.value, ", ")),
      metal := data.metal)
  }

  // ---------------------------------------------------------------- validation schema

  predicate NameRule(name: Option<string>) { name.Some? && |name.value| >= 2 }
  predicate RequiredText(t: Option<string>) { t.Some? && t.value != "" }
  /** `Yup.number().positive().required()`: "" is not a number, null and undefined are missing. */
  predicate PositiveNumber(n: NumField) { n.Num? && n.value > 0.0 }
  predicate StockRule(n: NumField) { n.Num? && n.value >= 0.0 && n.value.Floor as real == n.value }
  /** `Yup.object().required()`: a string is not an object. */
  predicate CategoryRule(c: CategoryValue) { !c.PlainName? }
  predicate MetalRule(m: Option<string>) { m.Some? && m.value in Metals }

  /** Every rule of the validation schema holds. */
  predicate ClientValid(v: FormValues) {
    && NameRule(v.name)
    && RequiredText(v.sku)
    && RequiredText(v.slug)
    && PositiveNumber(v.price)
    && PositiveNumber(v.discountPrice)
    && StockRule(v.stock)
    && CategoryRule(v.category)
    && MetalRule(v.metal)
  }

  /** Right after loading, the form cannot pass validation: its category is a plain string. */
  lemma LoadedFormFailsValidation(data: ProductData)
    requires data.category.Some? && data.collectionName.Some?
    ensures LoadedValues(data).category == PlainName(data.category.value.name)
    ensures !ClientValid(LoadedValues(data))
  {
  }

  /** A zero discount price never passes the client rules. */
  lemma ZeroDiscountPriceFailsValidation(v: FormValues)
    requires v.discountPrice == Num(0.0)
    ensures !ClientValid(v)
  {
  }

  /** The initial values do not pass validation either: the name is empty. */
  lemma InitialValuesFailValidation()
    ensures !ClientValid(InitialValues)
  {
  }

  // ---------------------------------------------------------------- component state

  class EditProductForm {
    var categories: seq<CategoryOption>
    var subCategories: seq<CategoryOption>
    var categoryType: Option<string>
    var categoryName: Option<string>
    var values: FormValues

    /** Every listed sub-category contains the selected parent as a whole word; before any
        parent is selected the list is empty. It documents what the sub-category dropdown
        offers: the constructor establishes it and every handler keeps it, and no formik
        value depends on it. */
    ghost predicate Valid()
      reads this
    {
      && (categoryType.None? ==> subCategories == [])
      && (categoryType.Some? ==> forall c :: c in subCategories ==> WholeWordMatch(categoryType.value, c.name))
    }

    constructor ()
      ensures Valid()
      ensures categories == [] && subCategories == []
      ensures categoryType == None && categoryName == None
      ensures values == InitialValues
    {
      categories := [];
      subCategories := [];
      categoryType := None;
      categoryName := None;
      values := InitialValues;
    }

    /** `fetchProductDetails`: `data.category.name` or `data.collectionName.join` throws when
        the field is absent, and then no value changes. */
    method LoadProduct(data: ProductData)
      requires Valid()
      modifies this`values
      ensures Valid()
      ensures data.category.None? || data.collectionName.None? ==> values == old(values)
      ensures data.category.Some? && data.collectionName.Some? ==> values == LoadedValues(data)
    {
      if data.category.Some? && data.collectionName.Some? {
        values := LoadedValues(data);
      }
    }

    /** `fetchCategories`: the option list is replaced; the filtered list is left as it was. */
    method LoadCategories(options: seq<CategoryOption>)
      requires Valid()
      modifies this`categories
      ensures Valid()
      ensures categories == options
    {
      categories := options;
    }

    /** `handleCategoryChange`: remembers the parent and keeps, in order, the categories whose
        name holds it as a whole word, compared case-insensitively. */
    method SelectCategory(parent: string)
      requires Valid()
      modifies this`categoryType, this`subCategories
      ensures Valid()
      ensures categoryType == Some(parent)
      ensures subCategories == FilterByWord(parent, categories)
      ensures forall c :: c in subCategories <==> c in categories && WholeWordMatch(parent, c.name)
      ensures IsSubsequence(subCategories, categories)
    {
      categoryType := Some(parent);
      subCategories := FilterByWord(parent, categories);
    }

    /** `handleCategoryNameChange`: the category becomes `{ name, type }` with the last selected
        parent; no other value changes. */
    method SelectSubCategory(name: string)
      requires Valid()
      modifies this`categoryName, this`values
      ensures Valid()
      ensures categoryName == Some(name)
      ensures values == old(values).(category := Composite(name, categoryType))
      ensures CategoryRule(values.category)
    {
      categoryName := Some(name);
      values := values.(category := Composite(name, categoryType));
    }

    /** Typing into the price input: `handleChange` stores the new price, and the percentage
        is computed from `formik.values` of the same render, that is from the price and the
        discount price as they were before this change. */
    method EditPrice(price: NumField)
      requires Valid()
      modifies this`values
      ensures Valid()
      ensures values == old(values).(price := price,
                                     discountPercent := DisplayedPercent(old(values.price), old(values.discountPrice)))
    {
      var shown := DisplayedPercent(values.price, values.discountPrice);
      values := values.(price := price);
      values := values.(discountPercent := shown);
    }

    /** Typing into the discount-price input; the percentage lags by one change as for price. */
    method EditDiscountPrice(discountPrice: NumField)
      requires Valid()
      modifies this`values
      ensures Valid()
      ensures values == old(values).(discountPrice := discountPrice,
                                     discountPercent := DisplayedPercent(old(values.price), old(values.discountPrice)))
    {
      var shown := DisplayedPercent(values.price, values.discountPrice);
      values := values.(discountPrice := discountPrice);
      values := values.(discountPercent := shown);
    }

    /** Submitting: formik validates the values against the schema and hands them to the
        update request only when they pass. */
    method Submit() returns (sent: Option<FormValues>)
      ensures sent.Some? <==> ClientValid(values)
      ensures sent.Some? ==> sent.value == values
    {
      if ClientValid(values) {
        sent := Some(values);
      } else {
        sent := None;
      }
    }
  }
}
