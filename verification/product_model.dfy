/**
 * The `Product` model: attribute validation and the `beforeCreate` hook, which looks up the seller
 * and derives the primary key `DDMMYYYY-category-username-randomhex`.
 */
module ProductModel {
  import opened Wrappers
  import opened Text
  import opened Seqs
  import opened Store

  newtype byte = x: int | 0 <= x < 256

  /** The UTC calendar fields of `new Date()`: `getUTCDate()`, `getUTCMonth()` (0-based), `getUTCFullYear()`. */
  datatype UtcDate = UtcDate(day: nat, month0: nat, year: nat)

  predicate ValidDate(d: UtcDate) {
    1 <= d.day <= 31 && d.month0 < 12
  }

  /** `String(n).padStart(2, '0')`. */
  function TwoDigits(n: nat): (r: string)
    ensures AllDigits(r)
    ensures n < 100 ==> |r| == 2
  {
    TwoDigitsFacts(n);
    PadStart(NatToString(n), 2, '0')
  }

  lemma TwoDigitsFacts(n: nat)
    ensures var r := PadStart(NatToString(n), 2, '0');
      AllDigits(r) && (n < 100 ==> |r| == 2 && ValueOf(r, 10) == n)
  {
    var s := NatToString(n);
    ValueOfNatToString(n);
    var r := PadStart(s, 2, '0');
    if n < 10 {
      assert r == ['0'] + s;
      assert r[..1] == ['0'];
    } else if n < 100 {
      assert |NatToString(n / 10)| == 1;
    }
  }

  /** The date part: zero-padded day, zero-padded 1-based month, then the year. */
  function DatePart(d: UtcDate): (r: string)
    ensures AllDigits(r)
  {
    var a := TwoDigits(d.day);
    var b := TwoDigits(d.month0 + 1);
    var c := NatToString(d.year);
    DigitsAppend(a, b);
    DigitsAppend(a + b, c);
    a + b + c
  }

  /** Day and month always take two characters, so a four-digit year gives eight characters. */
  lemma DatePartLength(d: UtcDate)
    requires ValidDate(d)
    ensures |DatePart(d)| == 4 + |NatToString(d.year)|
    ensures 1000 <= d.year <= 9999 ==> |DatePart(d)| == 8
  {
    assert |TwoDigits(d.day)| == 2;
    assert |TwoDigits(d.month0 + 1)| == 2;
    if 1000 <= d.year <= 9999 {
      YearDigits(d.year);
    }
  }

  lemma YearDigits(y: nat)
    ensures 1000 <= y <= 9999 ==> |NatToString(y)| == 4
  {
    if 1000 <= y <= 9999 {
      var a := y / 10;
      var b := a / 10;
      var c := b / 10;
      assert 1 <= c < 10 && 10 <= b < 100 && 100 <= a < 1000;
      assert |NatToString(c)| == 1;
      assert |NatToString(b)| == 2;
      assert |NatToString(a)| == 3;
    }
  }

  /** Reads a date part back: two digits of day, two of month, the rest the year. */
  function ParseDatePart(s: string): UtcDate
    requires |s| >= 4
  {
    var m := ValueOf(s[2..4], 10);
    UtcDate(ValueOf(s[..2], 10), if m >= 1 then m - 1 else 0, ValueOf(s[4..], 10))
  }

  /** The date part is a faithful encoding of a calendar date. */
  lemma DatePartRoundTrip(d: UtcDate)
    requires ValidDate(d)
    ensures ParseDatePart(DatePart(d)) == d
  {
    var a, b, c := TwoDigits(d.day), TwoDigits(d.month0 + 1), NatToString(d.year);
    assert |a| == 2 && ValueOf(a, 10) == d.day by { TwoDigitsFacts(d.day); }
    assert |b| == 2 && ValueOf(b, 10) == d.month0 + 1 by { TwoDigitsFacts(d.month0 + 1); }
    assert ValueOf(c, 10) == d.year by { ValueOfNatToString(d.year); }
    ParsePieces(a, b, c, d);
    assert DatePart(d) == a + b + c;
  }

  /** Reading back three pieces whose values are the day, the 1-based month and the year. */
  lemma ParsePieces(a: string, b: string, c: string, d: UtcDate)
    requires |a| == 2 && |b| == 2 && d.month0 < 12
    requires ValueOf(a, 10) == d.day && ValueOf(b, 10) == d.month0 + 1 && ValueOf(c, 10) == d.year
    ensures ParseDatePart(a + b + c) == d
  {
    var s := a + b + c;
    assert s[..2] == a && s[2..4] == b && s[4..] == c;
  }

  predicate IsLowerHex(c: char) { '0' <= c <= '9' || 'a' <= c <= 'f' }

  function HexDigit(n: nat): (c: char)
    requires n < 16
    ensures IsLowerHex(c) && DigitValue(c) == n
  {
    if n < 10 then ('0' as int + n) as char else ('a' as int + n - 10) as char
  }

  /** `buffer.toString('hex')`: two lowercase hex digits per byte, high nibble first. */
  function Hex(bytes: seq<byte>): (r: string)
    ensures |r| == 2 * |bytes|
    ensures forall i :: 0 <= i < |r| ==> IsLowerHex(r[i])
  {
    if |bytes| == 0 then ""
    else [HexDigit(bytes[0] as int / 16), HexDigit(bytes[0] as int % 16)] + Hex(bytes[1..])
  }

  /** Decoding hex text two digits at a time. */
  function Unhex(s: string): seq<int>
    requires |s| % 2 == 0
    decreases |s|
  {
    if |s| == 0 then [] else [DigitValue(s[0]) * 16 + DigitValue(s[1])] + Unhex(s[2..])
  }

  lemma ByteNibbles(b: byte)
    ensures DigitValue(HexDigit(b as int / 16)) * 16 + DigitValue(HexDigit(b as int % 16)) == b as int
  {
  }

  /** The hex text decodes back to the bytes it was made from. */
  lemma {:induction false} HexRoundTrip(bytes: seq<byte>)
    ensures Unhex(Hex(bytes)) == seq(|bytes|, i requires 0 <= i < |bytes| => bytes[i] as int)
    decreases |bytes|
  {
    if |bytes| > 0 {
      var h := Hex(bytes);
      assert h[0] == HexDigit(bytes[0] as int / 16) && h[1] == HexDigit(bytes[0] as int % 16);
      assert h[2..] == Hex(bytes[1..]);
      ByteNibbles(bytes[0]);
      HexRoundTrip(bytes[1..]);
    }
  }

  lemma HexIsLowerNoSpace(bytes: seq<byte>)
    ensures HasNoSpace(Hex(bytes)) && HasNoUpper(Hex(bytes)) && '-' !in Hex(bytes)
  {
    var h := Hex(bytes);
    forall i | 0 <= i < |h| ensures !IsSpace(h[i]) && !IsUpper(h[i]) && h[i] != '-' {
      assert IsLowerHex(h[i]);
    }
  }

  /** `s.replace(/\s+/g, '').toLowerCase()`. */
  function Sanitize(s: string): (r: string)
    ensures HasNoSpace(r) && HasNoUpper(r)
  {
    LowerKeepsNoSpace(StripSpace(s));
    Lower(StripSpace(s))
  }

  lemma SanitizeIdempotent(s: string)
    ensures Sanitize(Sanitize(s)) == Sanitize(s)
  {
    var t := Lower(StripSpace(s));
    LowerKeepsNoSpace(StripSpace(s));
    StripSpaceNoSpace(t);
    LowerIdempotent(StripSpace(s));
  }

  /** For every allowed category the id segment is the category name in lower case. */
  lemma SanitizeCategory(c: Category)
    ensures Sanitize(CategoryName(c)) == Lower(CategoryName(c))
    ensures '-' !in Sanitize(CategoryName(c))
  {
    var n := CategoryName(c);
    assert HasNoSpace(n);
    StripSpaceNoSpace(n);
  }

  /** Four parts joined by '-'. */
  function Dashed(d: string, c: string, u: string, h: string): (r: string)
    ensures |r| == |d| + |c| + |u| + |h| + 3
  {
    d + "-" + c + "-" + u + "-" + h
  }

  lemma DashedClean(d: string, c: string, u: string, h: string)
    requires HasNoSpace(d) && HasNoSpace(c) && HasNoSpace(u) && HasNoSpace(h)
    requires HasNoUpper(d) && HasNoUpper(c) && HasNoUpper(u) && HasNoUpper(h)
    ensures HasNoSpace(Dashed(d, c, u, h)) && HasNoUpper(Dashed(d, c, u, h))
  {
    var r := Dashed(d, c, u, h);
    forall i | 0 <= i < |r| ensures !IsSpace(r[i]) && !IsUpper(r[i]) {
      if i < |d| { assert r[i] == d[i]; }
      else if i == |d| { assert r[i] == '-'; }
      else if i < |d| + 1 + |c| { assert r[i] == c[i - |d| - 1]; }
      else if i == |d| + 1 + |c| { assert r[i] == '-'; }
      else if i < |d| + 2 + |c| + |u| { assert r[i] == u[i - |d| - 2 - |c|]; }
      else if i == |d| + 2 + |c| + |u| { assert r[i] == '-'; }
      else { assert r[i] == h[i - |d| - 3 - |c| - |u|]; }
    }
  }

  /** Where each part sits in the joined text. */
  lemma DashedLayout(d: string, c: string, u: string, h: string)
    ensures var r := Dashed(d, c, u, h);
      && r[..|d|] == d && r[|d|] == '-'
      && r[|d| + 1..|d| + 1 + |c|] == c && r[|d| + 1 + |c|] == '-'
      && r[|d| + 2 + |c|..|r| - |h| - 1] == u && r[|r| - |h| - 1] == '-'
      && r[|r| - |h|..] == h
  {
    var r := Dashed(d, c, u, h);
    assert r == d + ("-" + (c + ("-" + (u + ("-" + h)))));
  }

  /** The generated primary key: date, category, username and random hex joined by '-'. */
  function GenerateId(date: UtcDate, category: string, username: string, random: seq<byte>): (r: string)
    requires |random| == 4
    ensures HasNoSpace(r) && HasNoUpper(r)
    ensures |r| == |DatePart(date)| + |Sanitize(category)| + |Sanitize(username)| + 11
  {
    var d := DatePart(date);
    DigitsNoSpace(d);
    HexIsLowerNoSpace(random);
    DashedClean(d, Sanitize(category), Sanitize(username), Hex(random));
    Dashed(d, Sanitize(category), Sanitize(username), Hex(random))
  }

  lemma DigitsNoSpace(d: string)
    requires AllDigits(d)
    ensures HasNoSpace(d) && HasNoUpper(d) && '-' !in d
  {
    forall i | 0 <= i < |d| ensures !IsSpace(d[i]) && !IsUpper(d[i]) && d[i] != '-' {
      assert IsDigit(d[i]);
    }
  }

  /**
   * Where each part sits in an id: the date first, the sanitised category after the first '-',
   * the sanitised username next, and the eight hex digits after the last '-'.
   */
  lemma IdLayout(date: UtcDate, category: string, username: string, random: seq<byte>)
    requires |random| == 4
    ensures var r := GenerateId(date, category, username, random);
      var d := DatePart(date); var c := Sanitize(category); var u := Sanitize(username);
      && r[..|d|] == d && r[|d|] == '-'
      && r[|d| + 1..|d| + 1 + |c|] == c && r[|d| + 1 + |c|] == '-'
      && r[|d| + 2 + |c|..|r| - 9] == u && r[|r| - 9] == '-'
      && r[|r| - 8..] == Hex(random)
  {
    DashedLayout(DatePart(date), Sanitize(category), Sanitize(username), Hex(random));
  }

  /** Splitting an id at '-' recovers the date and, for an allowed category, the category name lower-cased. */
  lemma IdSegments(date: UtcDate, c: Category, username: string, random: seq<byte>)
    requires |random| == 4
    ensures var parts := Split(GenerateId(date, CategoryName(c), username, random), '-');
      |parts| >= 3 && parts[0] == DatePart(date) && parts[1] == Lower(CategoryName(c))
  {
    var d := DatePart(date);
    SanitizeCategory(c);
    DigitsNoSpace(d);
    DashedSplit(d, Sanitize(CategoryName(c)), Sanitize(username), Hex(random));
  }

  /** Splitting joined text at '-' gives back the first two parts when they hold no '-'. */
  lemma DashedSplit(d: string, c: string, u: string, h: string)
    requires '-' !in d && '-' !in c
    ensures var parts := Split(Dashed(d, c, u, h), '-');
      |parts| >= 3 && parts[0] == d && parts[1] == c
  {
    var rest := u + "-" + h;
    assert Dashed(d, c, u, h) == d + ['-'] + (c + ['-'] + rest);
    SplitAfter(d, c + ['-'] + rest, '-');
    SplitAfter(c, rest, '-');
  }

  /** A JSON body naming product attributes: the input of `Product.create` and `product.update`. */
  datatype ProductBody = ProductBody(
    id: Field<string>, name: Field<string>, description: Field<string>, category: Field<string>,
    price: Field<int>, seller: Field<Id>)

  datatype ProductError =
    | NotNull(column: string)
    | BelowMinimum
    | SellerNotFound
    | DuplicateId

  /**
   * The attribute rules: every column non-null and price at least 100.00. The category is not
   * checked against the ENUM's values: Sequelize compares an ENUM value with its list only when
   * `typeValidation` is on, and the connection does not turn it on.
   */
  predicate Acceptable(b: ProductBody) {
    && b.name.Val? && b.description.Val? && b.category.Val? && b.price.Val? && b.seller.Val?
    && b.price.value >= MIN_PRICE_CENTS
  }

  function Validate(b: ProductBody): (r: Option<ProductError>)
    ensures r.None? <==> Acceptable(b)
  {
    if !b.name.Val? then Some(NotNull("name"))
    else if !b.description.Val? then Some(NotNull("description"))
    else if !b.category.Val? then Some(NotNull("category"))
    else if !b.price.Val? then Some(NotNull("price"))
    else if !b.seller.Val? then Some(NotNull("seller"))
    else if b.price.value < MIN_PRICE_CENTS then Some(BelowMinimum)
    else None
  }

  /**
   * A category outside the declared list (`"Toys"`, say) passes like any other: creation and update
   * check only that a category is present.
   */
  lemma UndeclaredCategoryPasses(db: Db, b: ProductBody, c: string)
    requires b.category.Val?
    ensures Validate(b.(category := Val(c))) == Validate(b)
    ensures PatchAcceptable(db, b.(category := Val(c))) == PatchAcceptable(db, b)
  {
  }

  /**
   * `Product.create(body)` at time `now` on calendar day `date` with four random bytes: validation,
   * then `beforeCreate` (seller lookup, id generation; any id in the body is overwritten), then the
   * primary-key check of the insert.
   */
  function CreateProduct(db: Db, b: ProductBody, now: int, date: UtcDate, random: seq<byte>): (r: Result<Product, ProductError>)
    requires |random| == 4
    ensures r.Ok? <==> (Acceptable(b) && b.seller.value in UserIds(db) &&
      GenerateId(date, b.category.value, FindUser(db, b.seller.value).value.username, random) !in ProductIds(db))
    ensures Acceptable(b) && b.seller.value !in UserIds(db) ==> r == Err(SellerNotFound)
    ensures r.Ok? ==>
      && r.value.id == GenerateId(date, b.category.value, FindUser(db, b.seller.value).value.username, random)
      && r.value.name == b.name.value && r.value.description == b.description.value
      && r.value.category == b.category.value && r.value.price == b.price.value
      && r.value.seller == b.seller.value && r.value.createdAt == now && r.value.updatedAt == now
  {
    match Validate(b)
    case Some(e) => Err(e)
    case None =>
      match FindUser(db, b.seller.value)
      case None => Err(SellerNotFound)
      case Some(seller) =>
        var id := GenerateId(date, b.category.value, seller.username, random);
        if id in ProductIds(db) then Err(DuplicateId)
        else Ok(Product(id, b.name.value, b.description.value, b.category.value,
                        b.price.value, b.seller.value, now, now))
  }

  lemma CreateProductValid(db: Db, b: ProductBody, now: int, date: UtcDate, random: seq<byte>)
    requires |random| == 4
    requires Valid(db)
    requires CreateProduct(db, b, now, date, random).Ok?
    ensures Valid(InsertProduct(db, CreateProduct(db, b, now, date, random).value))
  {
    InsertProductValid(db, CreateProduct(db, b, now, date, random).value);
  }

  /** The hook overwrites whatever id the client sent: the body's `id` has no effect on creation. */
  lemma ClientIdIgnored(db: Db, b: ProductBody, id: Field<string>, now: int, date: UtcDate, random: seq<byte>)
    requires |random| == 4
    ensures CreateProduct(db, b.(id := id), now, date, random) == CreateProduct(db, b, now, date, random)
  {
  }

  /** The checks `product.update(body)` runs: null and minimum validation, then the seller foreign key. */
  predicate PatchAcceptable(db: Db, b: ProductBody) {
    && !b.name.Null? && !b.description.Null? && !b.category.Null? && !b.price.Null? && !b.seller.Null?
    && (b.price.Val? ==> b.price.value >= MIN_PRICE_CENTS)
    && (b.seller.Val? ==> b.seller.value in UserIds(db))
  }

  /**
   * `product.update(body)` at time `now`: the attributes present in the body replace the stored
   * ones; a save that changes nothing leaves `updatedAt` alone. The id and the timestamps are not
   * taken from the body.
   */
  function PatchProduct(db: Db, p: Product, b: ProductBody, now: int): (r: Result<Product, ProductError>)
    ensures r.Ok? <==> PatchAcceptable(db, b)
    ensures r.Ok? ==>
      && r.value.id == p.id && r.value.createdAt == p.createdAt
      && r.value.name == b.name.Or(p.name)
      && r.value.description == b.description.Or(p.description)
      && r.value.category == b.category.Or(p.category)
      && r.value.price == b.price.Or(p.price)
      && r.value.seller == b.seller.Or(p.seller)
      && (r.value.updatedAt == p.updatedAt || r.value.updatedAt == now)
    ensures r.Ok? && ProductRowOk(p) ==> ProductRowOk(r.value)
    ensures r.Ok? && p.seller in UserIds(db) ==> r.value.seller in UserIds(db)
  {
    if b.name.Null? then Err(NotNull("name"))
    else if b.description.Null? then Err(NotNull("description"))
    else if b.category.Null? then Err(NotNull("category"))
    else if b.price.Null? then Err(NotNull("price"))
    else if b.seller.Null? then Err(NotNull("seller"))
    else if b.price.Val? && b.price.value < MIN_PRICE_CENTS then Err(BelowMinimum)
    else if b.seller.Val? && b.seller.value !in UserIds(db) then Err(SellerNotFound)
    else
      var q := p.(name := b.name.Or(p.name), description := b.description.Or(p.description),
                  category := b.category.Or(p.category),
                  price := b.price.Or(p.price), seller := b.seller.Or(p.seller));
      Ok(if q == p then p else q.(updatedAt := now))
  }

  /** An empty body changes nothing, not even `updatedAt`. */
  lemma EmptyPatchIsIdentity(db: Db, p: Product, now: int)
    ensures PatchProduct(db, p, ProductBody(Absent, Absent, Absent, Absent, Absent, Absent), now) == Ok(p)
  {
  }
}
