/**
 * The request validators of the API (middleware/validationMiddleware.js).
 *
 * A request body or query is an association list `Obj`. Every string check
 * sees the field's text as the validator library renders it (`AsText`);
 * sanitisers such as `trim` replace the field before later rules run.
 * Each validator collects its error messages in rule order, and
 * `HandleValidationErrors` turns a non-empty list into a 400 reply. Numbers
 * in a body are integers; a fraction arrives as text, which `isFloat` and
 * `Number` read as the exact decimal it spells (module `Numbers`). The e-mail
 * and ISO 8601 grammars are those of the validator library and come in as a
 * `Grammar` parameter.
 */
module Validation {
  import opened Wrappers
  import opened Text
  import opened Helpers
  import opened Numbers

  /** The verdict of a validation chain: continue, or a 400 with the collected messages. */
  datatype Verdict = Next | Rejected(code: nat, error: string, details: seq<string>)

  /** The validator library's e-mail and ISO 8601 date recognisers. */
  datatype Grammar = Grammar(isEmail: string -> bool, isIsoDate: string -> bool)

  // ---------------------------------------------------------------------------
  // cleanEmptyStrings

  /** `cleanEmptyStrings`: deletes every key whose value is the empty string. */
  function CleanEmptyStrings(o: Obj): (r: Obj)
    ensures |r| <= |o|
    ensures forall p :: p in r <==> p in o && p.1 != Str("")
  {
    if o == [] then []
    else
      var init := o[..|o| - 1];
      var e := o[|o| - 1];
      assert o == init + [e];
      var rest := CleanEmptyStrings(init);
      if e.1 == Str("") then rest else rest + [e]
  }

  /**
   * Reading a key after cleaning gives `undefined` exactly where the request
   * held `''`, and the request's own value everywhere else.
   */
  lemma {:induction false} CleanGet(o: Obj, k: string)
    requires UniqueKeys(o)
    ensures Get(CleanEmptyStrings(o), k) == if Get(o, k) == Str("") then Undefined else Get(o, k)
  {
    if o != [] {
      var init := o[..|o| - 1];
      var e := o[|o| - 1];
      var rest := CleanEmptyStrings(init);
      assert UniqueKeys(init);
      if e.0 == k {
        if e.1 == Str("") {
          assert !HasKey(rest, k) by {
            forall i | 0 <= i < |rest| ensures rest[i].0 != k {
              assert rest[i] in init;
              var j :| 0 <= j < |init| && init[j] == rest[i];
              assert o[j] == init[j];
            }
          }
          GetAbsent(rest, k);
        }
      } else {
        CleanGet(init, k);
        if e.1 != Str("") {
          assert (rest + [e])[..|rest|] == rest;
        }
      }
    }
  }

  /** Cleaning an already-cleaned body changes nothing. */
  lemma {:induction false} CleanIdempotent(o: Obj)
    ensures CleanEmptyStrings(CleanEmptyStrings(o)) == CleanEmptyStrings(o)
  {
    if o != [] {
      var init := o[..|o| - 1];
      var e := o[|o| - 1];
      var rest := CleanEmptyStrings(init);
      CleanIdempotent(init);
      if e.1 != Str("") {
        assert (rest + [e])[..|rest|] == rest;
      }
    }
  }

  // ---------------------------------------------------------------------------
  // handleValidationErrors

  /** `handleValidationErrors`: a 400 "Validation failed" carrying the messages iff there are any. */
  function HandleValidationErrors(errors: seq<string>): (v: Verdict)
    ensures v.Next? <==> errors == []
    ensures v.Rejected? ==> v.code == 400 && v.error == "Validation failed" && v.details == errors
  {
    if errors == [] then Next else Rejected(400, "Validation failed", errors)
  }

  // ---------------------------------------------------------------------------
  // Field text, numbers and grammars

  /** The text a string check sees: the library renders `undefined` and `null` as `''`. */
  function AsText(v: Value): string
  {
    match v
    case Undefined => ""
    case Null => ""
    case Bool(b) => if b then "true" else "false"
    case Num(n) => IntToString(n)
    case Str(s) => s
    case Time(_) => ""
  }

  function Trimmed(v: Value): string { Trim(AsText(v)) }

  /** A field that is absent, or whose text trims to nothing. */
  predicate Blank(v: Value) { v.Undefined? || Trimmed(v) == [] }

  /** The value a `.trim()` sanitiser leaves in the body: the trimmed text of a present field. */
  function TrimField(v: Value): (r: Value)
    ensures Truthy(r) <==> !Blank(v)
  {
    if v.Undefined? then Undefined else Str(Trimmed(v))
  }

  /** `isInt({ min: lo })`. */
  predicate IntAtLeast(s: string, lo: int) { ParseInt(s).Some? && ParseInt(s).value >= lo }

  /** `isInt({ min: lo, max: hi })`. */
  predicate IntBetween(s: string, lo: int, hi: int) { ParseInt(s).Some? && lo <= ParseInt(s).value <= hi }

  /** `isFloat({ min: 0.01 })`: a decimal text whose value is at least one hundredth. */
  predicate IsPositiveAmount(s: string) { ParseFloat(s).Some? && AtLeast(ParseFloat(s).value, Hundredth) }

  /** For a number sent as such, the integer and amount checks compare the number itself. */
  lemma NumberText(n: int, lo: int, hi: int)
    ensures IntAtLeast(AsText(Num(n)), lo) <==> n >= lo
    ensures IntBetween(AsText(Num(n)), lo, hi) <==> lo <= n <= hi
    ensures IsPositiveAmount(AsText(Num(n))) <==> n >= 1
  {
    ParseIntToString(n);
    ParseFloatOfInt(n);
    AtLeastHundredth(n, 2);
    ShiftSign(n, 2);
  }

  /** An amount in pesewas written in cedis passes the amount rule exactly when it is at least one pesewa. */
  lemma AmountInCedis(c: int)
    ensures IsPositiveAmount(MoneyText(c)) <==> c >= 1
  {
    MoneyTextAtLeastHundredth(c);
  }

  /** The amount rule on a number and on the cedi text of a pesewa amount: it fails exactly below one unit of each. */
  lemma AmountRule(v: Value, failed: bool)
    requires failed <==> !IsPositiveAmount(AsText(v))
    ensures forall a :: v == Num(a) ==> (failed <==> a < 1)
    ensures forall c :: v == Str(MoneyText(c)) ==> (failed <==> c < 1)
  {
    if v.Num? {
      NumberText(v.n, 1, 1);
    }
    forall c | v == Str(MoneyText(c)) ensures failed <==> c < 1 {
      AmountInCedis(c);
    }
  }

  /**
   * JavaScript's `Number(v)` on the values a body can hold: `None` is `NaN`.
   * Surrounding white space is ignored and blank text is 0.
   */
  function JsNumber(v: Value): (r: Option<JsNum>)
    ensures v.Num? ==> r == Some(Finite(Decimal(v.n, 0)))
    ensures v.Str? && IsBlank(v.s) ==> r == Some(Finite(Decimal(0, 0)))
  {
    match v
    case Undefined => None
    case Null => Some(Finite(Decimal(0, 0)))
    case Bool(b) => Some(Finite(Decimal(if b then 1 else 0, 0)))
    case Num(n) => Some(Finite(Decimal(n, 0)))
    case Str(s) => TextToNumber(s)
    case Time(_) => None
  }

  predicate IsHexDigit(c: char) { IsDigit(c) || 'a' <= c <= 'f' || 'A' <= c <= 'F' }

  predicate AllHex(s: string) { forall i :: 0 <= i < |s| ==> IsHexDigit(s[i]) }

  /** The prefix `isHexadecimal` allows: `0x` or `0h`, in either case. */
  predicate HexPrefixed(s: string) { |s| >= 2 && s[0] == '0' && s[1] in "xXhH" }

  /** `isHexadecimal`: an optional `0x` or `0h` prefix, then at least one hexadecimal digit. */
  predicate IsHexadecimal(s: string)
  {
    var digits := if HexPrefixed(s) then s[2..] else s;
    digits != [] && AllHex(digits)
  }

  /** `isMongoId`: a hexadecimal text of exactly 24 characters, prefix included. */
  predicate IsMongoId(s: string) { |s| == 24 && IsHexadecimal(s) }

  /**
   * The two shapes of an accepted id: 24 hexadecimal digits (an ObjectId as
   * the server prints it), or a `0x`/`0h` prefix and 22 digits.
   */
  lemma MongoIdShapes(s: string)
    ensures IsMongoId(s) <==> |s| == 24 && (AllHex(s) || (HexPrefixed(s) && AllHex(s[2..])))
  {
    if HexPrefixed(s) {
      assert !IsHexDigit(s[1]);
      assert !AllHex(s);
    }
  }

  /** A prefixed text of 22 digits passes, and so does the same text without its prefix only with two more digits. */
  lemma PrefixedMongoId(h: string)
    requires |h| == 22 && AllHex(h)
    ensures IsMongoId("0x" + h) && IsMongoId("0H" + h)
    ensures !IsMongoId(h) && IsMongoId("00" + h)
  {
    assert ("0x" + h)[2..] == h && ("0H" + h)[2..] == h;
    var z := "00" + h;
    assert forall i :: 0 <= i < |z| ==> z[i] == if i < 2 then '0' else h[i - 2];
    assert !HexPrefixed(z);
  }

  /** The letters, digits and underscores a username may contain. */
  predicate IsWordChar(c: char) { IsAlnum(c) || c == '_' }

  /** `isBoolean` in its strict form. */
  predicate IsBooleanText(s: string) { s == "true" || s == "false" || s == "1" || s == "0" }

  /** One rule: no message when it holds, its message otherwise. */
  function Check(ok: bool, msg: string): (r: seq<string>)
    ensures r == [] <==> ok
  {
    if ok then [] else [msg]
  }

  // ---------------------------------------------------------------------------
  // validateMember

  const NameRequired := "Name is required"
  const NameLength := "Name must be between 2 and 100 characters"
  const MemberIdLength := "Member ID must be less than 50 characters"
  const AutoIdNotBoolean := "autoGenerateId must be a boolean value"
  const AutoIdClash := "Cannot provide memberId when autoGenerateId is enabled"
  const ContactLength := "Contact must be less than 20 characters"
  const InvalidEmail := "Invalid email format"
  const DuesInvalid := "Dues per month must be a positive number"
  const JoinDateInvalid := "Join date must be a valid date"
  const SubgroupIdInvalid := "Subgroup ID must be a valid MongoDB ID"

  /**
   * The `duesPerMonth` rule: a falsy value passes; anything else must be a
   * number and not negative.
   */
  predicate DuesAcceptable(v: Value)
  {
    !Truthy(v) || (JsNumber(v).Some? && NonNegative(JsNumber(v).value))
  }

  /**
   * The member rules' messages in rule order, from the outcome of each rule;
   * every message names its own rule.
   */
  function MemberMessages(name: bool, nameLength: bool, idLength: bool, autoBoolean: bool, noClash: bool,
                          contact: bool, email: bool, dues: bool, joinDate: bool, subgroup: bool): (errors: seq<string>)
    ensures errors == [] <==> name && nameLength && idLength && autoBoolean && noClash && contact && email && dues && joinDate && subgroup
    ensures NameRequired in errors <==> !name
    ensures AutoIdClash in errors <==> !noClash
    ensures DuesInvalid in errors <==> !dues
  {
    Check(name, NameRequired) + Check(nameLength, NameLength) + Check(idLength, MemberIdLength)
    + Check(autoBoolean, AutoIdNotBoolean) + Check(noClash, AutoIdClash) + Check(contact, ContactLength)
    + Check(email, InvalidEmail) + Check(dues, DuesInvalid) + Check(joinDate, JoinDateInvalid)
    + Check(subgroup, SubgroupIdInvalid)
  }

  /** The member rules on a body already cleaned of empty strings. */
  function MemberRules(g: Grammar, o: Obj): (errors: seq<string>)
  {
    var name := Trimmed(Get(o, "name"));
    var memberId := Get(o, "memberId");
    var auto := Get(o, "autoGenerateId");
    var contact := Get(o, "contact");
    var email := Get(o, "email");
    var join := Get(o, "joinDate");
    var subgroup := Get(o, "subgroupId");
    MemberMessages(
      name != [],
      2 <= |name| <= 100,
      memberId.Undefined? || |Trimmed(memberId)| <= 50,
      auto.Undefined? || IsBooleanText(AsText(auto)),
      !(auto == Bool(true) && Truthy(TrimField(memberId))),
      contact.Undefined? || |Trimmed(contact)| <= 20,
      !Truthy(email) || g.isEmail(Trimmed(email)),
      DuesAcceptable(Get(o, "duesPerMonth")),
      !Truthy(join) || g.isIsoDate(AsText(join)),
      !Truthy(subgroup) || IsMongoId(AsText(subgroup)))
  }

  /**
   * `validateMember` on a request body, stated on the body as sent: an
   * accepted body has a trimmed name of 2 to 100 characters; the clash
   * message appears exactly when `autoGenerateId` is the boolean `true` and
   * a non-blank `memberId` is given; the dues message exactly when the dues
   * rule fails.
   */
  function MemberErrors(g: Grammar, body: Obj): (errors: seq<string>)
    requires UniqueKeys(body)
    ensures errors == [] ==> 2 <= |Trimmed(Get(body, "name"))| <= 100
    ensures AutoIdClash in errors <==> Get(body, "autoGenerateId") == Bool(true) && !Blank(Get(body, "memberId"))
    ensures DuesInvalid in errors <==> !DuesAcceptable(Get(body, "duesPerMonth"))
    ensures NameRequired in errors <==> Blank(Get(body, "name"))
  {
    var o := CleanEmptyStrings(body);
    CleanGet(body, "name");
    CleanGet(body, "memberId");
    CleanGet(body, "autoGenerateId");
    CleanGet(body, "duesPerMonth");
    EmptyStringReadsAsAbsent();
    MemberRules(g, o)
  }

  /** An empty string and an absent field read the same to every member rule. */
  lemma EmptyStringReadsAsAbsent()
    ensures Trimmed(Str("")) == [] && Trimmed(Undefined) == []
    ensures Blank(Str("")) && Blank(Undefined)
    ensures !Truthy(TrimField(Str(""))) && !Truthy(TrimField(Undefined))
    ensures DuesAcceptable(Str("")) && DuesAcceptable(Undefined)
  {
    assert |Trim([])| == 0;
  }

  /** `validateMember` as a middleware chain. */
  function ValidateMember(g: Grammar, body: Obj): (v: Verdict)
    requires UniqueKeys(body)
    ensures v.Next? ==> 2 <= |Trimmed(Get(body, "name"))| <= 100
    ensures v.Next? ==> !(Get(body, "autoGenerateId") == Bool(true) && !Blank(Get(body, "memberId")))
    ensures v.Next? ==> DuesAcceptable(Get(body, "duesPerMonth"))
    ensures v.Rejected? ==> v.code == 400
  {
    HandleValidationErrors(MemberErrors(g, body))
  }

  /**
   * The dues rule on the common shapes of input: a number passes exactly when
   * it is not negative, and so does its decimal rendering sent as text, while
   * text of only white space passes because `Number` reads it as 0.
   */
  lemma DuesCases(n: int, blank: string)
    requires blank != [] && AllSpace(blank)
    ensures DuesAcceptable(Num(n)) <==> n >= 0
    ensures DuesAcceptable(Str(IntToString(n))) <==> n >= 0
    ensures DuesAcceptable(Str(blank))
  {
    DuesNumber(n);
    DuesText(n);
    DuesBlank(blank);
  }

  lemma DuesNumber(n: int)
    ensures DuesAcceptable(Num(n)) <==> n >= 0
  {
  }

  lemma DuesText(n: int)
    ensures DuesAcceptable(Str(IntToString(n))) <==> n >= 0
  {
    NumberOfRendering(n);
    DuesOfNumber(Str(IntToString(n)), n);
  }

  /** `Number(String(n))` is `n`. */
  lemma NumberOfRendering(n: int)
    ensures JsNumber(Str(IntToString(n))) == Some(Finite(Decimal(n, 0)))
  {
    TextToNumberOfInt(n);
  }

  lemma DuesOfNumber(v: Value, n: int)
    requires Truthy(v) && JsNumber(v) == Some(Finite(Decimal(n, 0)))
    ensures DuesAcceptable(v) <==> n >= 0
  {
  }

  lemma DuesBlank(blank: string)
    requires blank != [] && AllSpace(blank)
    ensures DuesAcceptable(Str(blank))
  {
    BlankIffAllSpace(blank);
  }

  /** Dues of an amount in pesewas written in cedis, fraction and all, pass exactly when it is not negative. */
  lemma DuesInCedis(c: int)
    ensures DuesAcceptable(Str(MoneyText(c))) <==> c >= 0
  {
    MoneyTextNumber(c);
    MoneyTextAtLeastHundredth(c);
    DuesOfDecimal(MoneyText(c), ParseFloat(MoneyText(c)).value);
  }

  lemma DuesOfDecimal(s: string, x: Decimal)
    requires s != [] && TextToNumber(s) == Some(Finite(x))
    ensures DuesAcceptable(Str(s)) <==> x.mantissa >= 0
  {
  }

  // ---------------------------------------------------------------------------
  // validatePayment

  const PaymentMemberRequired := "Member ID is required"
  const PaymentMemberInvalid := "Member ID must be a valid MongoDB ID"
  const AmountRequired := "Amount is required"
  const AmountInvalid := "Amount must be a positive number"
  const DateInvalid := "Date must be a valid ISO 8601 date"
  const MonthsInvalid := "Months covered must be a positive integer"

  function PaymentMessages(memberId: bool, mongoId: bool, amount: bool, positive: bool, date: bool,
                           months: bool): (errors: seq<string>)
    ensures errors == [] <==> memberId && mongoId && amount && positive && date && months
    ensures AmountInvalid in errors <==> !positive
    ensures MonthsInvalid in errors <==> !months
  {
    Check(memberId, PaymentMemberRequired) + Check(mongoId, PaymentMemberInvalid)
    + Check(amount, AmountRequired) + Check(positive, AmountInvalid)
    + Check(date, DateInvalid) + Check(months, MonthsInvalid)
  }

  function PaymentRules(g: Grammar, o: Obj): seq<string>
  {
    var memberId := AsText(Get(o, "memberId"));
    var amount := AsText(Get(o, "amount"));
    var date := Get(o, "date");
    var months := Get(o, "monthsCovered");
    PaymentMessages(
      memberId != [],
      IsMongoId(memberId),
      amount != [],
      IsPositiveAmount(amount),
      date.Undefined? || g.isIsoDate(AsText(date)),
      months.Undefined? || IntAtLeast(AsText(months), 1))
  }

  lemma PaymentRuleMessages(g: Grammar, body: Obj)
    ensures AmountInvalid in PaymentRules(g, body) <==> !IsPositiveAmount(AsText(Get(body, "amount")))
    ensures MonthsInvalid in PaymentRules(g, body) <==>
              !(Get(body, "monthsCovered").Undefined? || IntAtLeast(AsText(Get(body, "monthsCovered")), 1))
  {
  }

  /**
   * `validatePayment`: an `amount` sent as a (whole) number passes the
   * amount rule exactly when it is at least 1, one sent as the cedi text of
   * a pesewa amount exactly when that is at least one pesewa; a numeric
   * `monthsCovered` passes exactly when at least one month is covered.
   */
  function ValidatePayment(g: Grammar, body: Obj): (v: Verdict)
    ensures v.Next? ==> IsMongoId(AsText(Get(body, "memberId"))) && IsPositiveAmount(AsText(Get(body, "amount")))
    ensures forall a :: Get(body, "amount") == Num(a) ==> (AmountInvalid in PaymentRules(g, body) <==> a < 1)
    ensures forall c :: Get(body, "amount") == Str(MoneyText(c)) ==> (AmountInvalid in PaymentRules(g, body) <==> c < 1)
    ensures forall m :: Get(body, "monthsCovered") == Num(m) ==> (MonthsInvalid in PaymentRules(g, body) <==> m < 1)
    ensures Get(body, "monthsCovered").Undefined? ==> MonthsInvalid !in PaymentRules(g, body)
    ensures v.Rejected? ==> v.code == 400 && v.details == PaymentRules(g, body)
  {
    var months := Get(body, "monthsCovered");
    PaymentRuleMessages(g, body);
    AmountRule(Get(body, "amount"), AmountInvalid in PaymentRules(g, body));
    NumberText(if months.Num? then months.n else 0, 1, 1);
    HandleValidationErrors(PaymentRules(g, body))
  }

  // ---------------------------------------------------------------------------
  // validateExpenditure

  function ExpenditureMessages(title: bool, titleLength: bool, amount: bool, positive: bool, date: bool,
                               category: bool, description: bool): (errors: seq<string>)
    ensures errors == [] <==> title && titleLength && amount && positive && date && category && description
    ensures AmountInvalid in errors <==> !positive
  {
    Check(title, "Title is required") + Check(titleLength, "Title must be between 2 and 200 characters")
    + Check(amount, AmountRequired) + Check(positive, AmountInvalid) + Check(date, DateInvalid)
    + Check(category, "Category must be less than 50 characters")
    + Check(description, "Description must be less than 500 characters")
  }

  function ExpenditureRules(g: Grammar, o: Obj): seq<string>
  {
    var title := Trimmed(Get(o, "title"));
    var amount := AsText(Get(o, "amount"));
    var date := Get(o, "date");
    var category := Get(o, "category");
    var description := Get(o, "description");
    ExpenditureMessages(
      title != [],
      2 <= |title| <= 200,
      amount != [],
      IsPositiveAmount(amount),
      date.Undefined? || g.isIsoDate(AsText(date)),
      category.Undefined? || |Trimmed(category)| <= 50,
      description.Undefined? || |Trimmed(description)| <= 500)
  }

  lemma ExpenditureAmountRule(g: Grammar, body: Obj)
    ensures AmountInvalid in ExpenditureRules(g, body) <==> !IsPositiveAmount(AsText(Get(body, "amount")))
  {
  }

  /**
   * `validateExpenditure`: an accepted expenditure has a trimmed title of 2
   * to 200 characters and an amount worth at least 0.01, whether sent as a
   * number or as text; optional
   * category and description, when given, trim to at most 50 and 500.
   */
  function ValidateExpenditure(g: Grammar, body: Obj): (v: Verdict)
    ensures v.Next? ==> 2 <= |Trimmed(Get(body, "title"))| <= 200 && IsPositiveAmount(AsText(Get(body, "amount")))
    ensures v.Next? ==> Blank(Get(body, "category")) || |Trimmed(Get(body, "category"))| <= 50
    ensures v.Next? ==> Blank(Get(body, "description")) || |Trimmed(Get(body, "description"))| <= 500
    ensures forall a :: Get(body, "amount") == Num(a) ==> (AmountInvalid in ExpenditureRules(g, body) <==> a < 1)
    ensures forall c :: Get(body, "amount") == Str(MoneyText(c)) ==> (AmountInvalid in ExpenditureRules(g, body) <==> c < 1)
    ensures v.Rejected? ==> v.code == 400 && v.details == ExpenditureRules(g, body)
  {
    ExpenditureAmountRule(g, body);
    AmountRule(Get(body, "amount"), AmountInvalid in ExpenditureRules(g, body));
    HandleValidationErrors(ExpenditureRules(g, body))
  }

  // ---------------------------------------------------------------------------
  // validateLogin

  const EitherRequired := "Either username or email is required"

  function LoginMessages(username: bool, email: bool, password: bool, passwordLength: bool, either: bool): (errors: seq<string>)
    ensures errors == [] <==> username && email && password && passwordLength && either
    ensures EitherRequired in errors <==> !either
  {
    Check(username, "Username must be between 3 and 50 characters") + Check(email, InvalidEmail)
    + Check(password, "Password is required") + Check(passwordLength, "Password must be at least 6 characters")
    + Check(either, EitherRequired)
  }

  function LoginRules(g: Grammar, o: Obj): seq<string>
  {
    var username := Get(o, "username");
    var email := Get(o, "email");
    var password := AsText(Get(o, "password"));
    LoginMessages(
      username.Undefined? || 3 <= |Trimmed(username)| <= 50,
      email.Undefined? || g.isEmail(Trimmed(email)),
      password != [],
      |password| >= 6,
      Truthy(TrimField(username)) || Truthy(TrimField(email)))
  }

  /**
   * `validateLogin`: refused when neither a username nor an e-mail survives
   * trimming; an accepted login carries a password of at least six characters.
   */
  function ValidateLogin(g: Grammar, body: Obj): (v: Verdict)
    ensures EitherRequired in LoginRules(g, body) <==> Blank(Get(body, "username")) && Blank(Get(body, "email"))
    ensures v.Next? ==> !Blank(Get(body, "username")) || !Blank(Get(body, "email"))
    ensures v.Next? ==> |AsText(Get(body, "password"))| >= 6
    ensures v.Rejected? ==> v.code == 400 && v.details == LoginRules(g, body)
  {
    HandleValidationErrors(LoginRules(g, body))
  }

  // ---------------------------------------------------------------------------
  // validateRegister

  function RegisterRules(g: Grammar, o: Obj): seq<string>
  {
    var username := Trimmed(Get(o, "username"));
    var password := AsText(Get(o, "password"));
    var email := Get(o, "email");
    var role := Get(o, "role");
    Check(username != [], "Username is required")
    + Check(3 <= |username| <= 50, "Username must be between 3 and 50 characters")
    + Check(username != [] && forall i :: 0 <= i < |username| ==> IsWordChar(username[i]),
            "Username can only contain letters, numbers, and underscores")
    + Check(password != [], "Password is required")
    + Check(|password| >= 6, "Password must be at least 6 characters")
    + Check(email.Undefined? || g.isEmail(Trimmed(email)), InvalidEmail)
    + Check(role.Undefined? || AsText(role) == "admin" || AsText(role) == "super", "Role must be either admin or super")
  }

  /**
   * `validateRegister`: an accepted registration has a trimmed username of 3
   * to 50 letters, digits and underscores, a password of at least six
   * characters, and a role, if any, of `admin` or `super`.
   */
  function ValidateRegister(g: Grammar, body: Obj): (v: Verdict)
    ensures v.Next? ==> var u := Trimmed(Get(body, "username"));
                        3 <= |u| <= 50 && forall i :: 0 <= i < |u| ==> IsWordChar(u[i])
    ensures v.Next? ==> |AsText(Get(body, "password"))| >= 6
    ensures v.Next? ==> Get(body, "role").Undefined? || AsText(Get(body, "role")) in {"admin", "super"}
    ensures v.Rejected? ==> v.code == 400
  {
    HandleValidationErrors(RegisterRules(g, body))
  }

  // ---------------------------------------------------------------------------
  // validateSubgroup, validateMongoId

  function SubgroupRules(o: Obj): seq<string>
  {
    var name := Trimmed(Get(o, "name"));
    var leader := Get(o, "leaderId");
    Check(name != [], "Subgroup name is required")
    + Check(2 <= |name| <= 100, "Subgroup name must be between 2 and 100 characters")
    + Check(leader.Undefined? || IsMongoId(AsText(leader)), "Leader ID must be a valid MongoDB ID")
  }

  /** `validateSubgroup`: accepted iff the trimmed name has 2 to 100 characters and a given leader id is well formed. */
  function ValidateSubgroup(body: Obj): (v: Verdict)
    ensures v.Next? <==> 2 <= |Trimmed(Get(body, "name"))| <= 100
                         && (Get(body, "leaderId").Undefined? || IsMongoId(AsText(Get(body, "leaderId"))))
  {
    HandleValidationErrors(SubgroupRules(body))
  }

  /** `validateMongoId` on the `id` route parameter. */
  function ValidateMongoId(params: Obj): (v: Verdict)
    ensures v.Next? <==> IsMongoId(AsText(Get(params, "id")))
    ensures v.Rejected? ==> v.details == ["Invalid ID format"]
  {
    HandleValidationErrors(Check(IsMongoId(AsText(Get(params, "id"))), "Invalid ID format"))
  }

  // ---------------------------------------------------------------------------
  // validatePagination

  function PaginationRules(q: Obj): seq<string>
  {
    var page := Get(q, "page");
    var limit := Get(q, "limit");
    var search := Get(q, "search");
    Check(page.Undefined? || IntAtLeast(AsText(page), 1), "Page must be a positive integer")
    + Check(limit.Undefined? || IntBetween(AsText(limit), 1, 100), "Limit must be between 1 and 100")
    + Check(search.Undefined? || |Trimmed(search)| <= 100, "Search term must be less than 100 characters")
  }

  /**
   * `validatePagination`: an accepted query's page is an integer of at least
   * 1 and its limit an integer from 1 to 100, when given.
   */
  function ValidatePagination(q: Obj): (v: Verdict)
    ensures v.Next? ==> Get(q, "page").Undefined? || IntAtLeast(AsText(Get(q, "page")), 1)
    ensures v.Next? ==> Get(q, "limit").Undefined? || IntBetween(AsText(Get(q, "limit")), 1, 100)
    ensures v.Rejected? ==> v.code == 400
  {
    HandleValidationErrors(PaginationRules(q))
  }

  /**
   * For a query whose page and limit are the decimal renderings of `page`
   * and `limit` and which has no search term, the query is accepted exactly
   * when `page >= 1` and `1 <= limit <= 100`.
   */
  lemma PaginationBounds(q: Obj, page: int, limit: int)
    requires Get(q, "page") == Str(IntToString(page))
    requires Get(q, "limit") == Str(IntToString(limit))
    requires Get(q, "search") == Undefined
    ensures ValidatePagination(q).Next? <==> page >= 1 && 1 <= limit <= 100
  {
    ParseIntToString(page);
    ParseIntToString(limit);
  }
}
