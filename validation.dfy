/** The request-body validation chains of the product and auth routes. Each
    chain yields the messages of the fields that failed, in the order the
    chains are declared; an empty list means the body is accepted.
    Fields are strings or absent (`None`), and the sanitised value of a
    field (trimmed, normalised) is what the handlers then store. */
module Validation {
  import opened Http
  import opened Text

  /** A `price` field: a number, held in cents, or a value `isFloat` rejects. */
  datatype Amount = Cents(cents: int) | NotANumber

  /** The body of a create or update request. */
  datatype ProductInput = ProductInput(
    title: Option<string>, description: Option<string>, price: Option<Amount>,
    image: Option<string>, category: Option<string>)

  /** The body of a register request. */
  datatype RegisterInput = RegisterInput(username: Option<string>, email: Option<string>, password: Option<string>)

  /** The body of a login request. */
  datatype LoginInput = LoginInput(email: Option<string>, password: Option<string>)

  predicate TitleOk(title: string) {
    2 <= |Trim(title)| <= 200
  }

  predicate DescriptionOk(description: string) {
    10 <= |Trim(description)| <= 2000
  }

  /** `isFloat({ min: 0.01 })`. */
  predicate PriceOk(price: Amount) {
    price.Cents? && price.cents >= 1
  }

  /** `isEmail()` followed by `normalizeEmail()`: the library's verdict on
      an address, `None` when it is not an email address and the normalised
      address otherwise. */
  type EmailCheck = string -> Option<string>

  /** `isURL()`. */
  type UrlCheck = string -> bool

  const TitleMessage := "Title must be 2-200 characters"
  const DescriptionMessage := "Description must be 10-2000 characters"
  const PriceMessage := "Price must be greater than 0"
  const ImageMessage := "Image must be a valid URL"
  const DefaultMessage := "Invalid value"
  const UsernameMessage := "Username must be 3-30 characters"
  const EmailMessage := "Valid email is required"
  const PasswordLengthMessage := "Password must be at least 6 characters"
  const PasswordMessage := "Password is required"

  /** The message if `ok` fails. */
  function Check(ok: bool, message: string): (r: seq<string>)
    ensures r == [] <==> ok
    ensures r == [] || r == [message]
  {
    if ok then [] else [message]
  }

  /** 1 for a failed check, 0 for a passed one. */
  function Fails(ok: bool): nat {
    if ok then 0 else 1
  }

  /** Two checks with different messages: each message is reported exactly
      when its check fails, once per failure. */
  lemma TwoChecks(a: bool, ma: string, b: bool, mb: string)
    requires ma != mb
    ensures var e := Check(a, ma) + Check(b, mb);
      && (ma in e <==> !a) && (mb in e <==> !b)
      && |e| == Fails(a) + Fails(b)
  {
  }

  /** The same for three checks. */
  lemma ThreeChecks(a: bool, ma: string, b: bool, mb: string, c: bool, mc: string)
    requires ma != mb && ma != mc && mb != mc
    ensures var e := Check(a, ma) + Check(b, mb) + Check(c, mc);
      && (ma in e <==> !a) && (mb in e <==> !b) && (mc in e <==> !c)
      && |e| == Fails(a) + Fails(b) + Fails(c)
  {
    TwoChecks(a, ma, b, mb);
  }

  /** The same for four checks. */
  lemma FourChecks(a: bool, ma: string, b: bool, mb: string, c: bool, mc: string, d: bool, md: string)
    requires ma != mb && ma != mc && ma != md && mb != mc && mb != md && mc != md
    ensures var e := Check(a, ma) + Check(b, mb) + Check(c, mc) + Check(d, md);
      && (ma in e <==> !a) && (mb in e <==> !b) && (mc in e <==> !c) && (md in e <==> !d)
      && |e| == Fails(a) + Fails(b) + Fails(c) + Fails(d)
  {
    ThreeChecks(a, ma, b, mb, c, mc);
  }

  /** The create chain: title and description required and trimmed, price
      required, image optional but a URL when given, category optional. */
  function CreateErrors(input: ProductInput, isUrl: UrlCheck): (errors: seq<string>)
    ensures errors == [] <==>
      && TitleOk(OrEmpty(input.title))
      && DescriptionOk(OrEmpty(input.description))
      && input.price.Some? && PriceOk(input.price.value)
      && (input.image.Some? ==> isUrl(input.image.value))
    ensures |errors| <= 4
  {
    Check(TitleOk(OrEmpty(input.title)), TitleMessage)
    + Check(DescriptionOk(OrEmpty(input.description)), DescriptionMessage)
    + Check(input.price.Some? && PriceOk(input.price.value), PriceMessage)
    + Check(input.image.None? || isUrl(input.image.value), ImageMessage)
  }

  /** Each failed field of a create body reports its own message, once. */
  lemma CreateMessages(input: ProductInput, isUrl: UrlCheck)
    ensures var errors := CreateErrors(input, isUrl);
      && (TitleMessage in errors <==> !TitleOk(OrEmpty(input.title)))
      && (DescriptionMessage in errors <==> !DescriptionOk(OrEmpty(input.description)))
      && (PriceMessage in errors <==> !(input.price.Some? && PriceOk(input.price.value)))
      && (ImageMessage in errors <==> input.image.Some? && !isUrl(input.image.value))
      && |errors| == Fails(TitleOk(OrEmpty(input.title))) + Fails(DescriptionOk(OrEmpty(input.description)))
                     + Fails(input.price.Some? && PriceOk(input.price.value))
                     + Fails(input.image.None? || isUrl(input.image.value))
  {
    FourChecks(TitleOk(OrEmpty(input.title)), TitleMessage, DescriptionOk(OrEmpty(input.description)), DescriptionMessage,
               input.price.Some? && PriceOk(input.price.value), PriceMessage,
               input.image.None? || isUrl(input.image.value), ImageMessage);
  }

  /** The update chain: every field optional, and checked as on create when
      given. Its validators carry no message, so each failed field reports
      the library default and the list is that message once per failure. */
  function UpdateErrors(input: ProductInput, isUrl: UrlCheck): (errors: seq<string>)
    ensures errors == [] <==>
      && (input.title.Some? ==> TitleOk(input.title.value))
      && (input.description.Some? ==> DescriptionOk(input.description.value))
      && (input.price.Some? ==> PriceOk(input.price.value))
      && (input.image.Some? ==> isUrl(input.image.value))
    ensures |errors| <= 4
    ensures forall k | 0 <= k < |errors| :: errors[k] == DefaultMessage
  {
    var failures := |Check(input.title.None? || TitleOk(input.title.value), DefaultMessage)|
      + |Check(input.description.None? || DescriptionOk(input.description.value), DefaultMessage)|
      + |Check(input.price.None? || PriceOk(input.price.value), DefaultMessage)|
      + |Check(input.image.None? || isUrl(input.image.value), DefaultMessage)|;
    seq(failures, _ => DefaultMessage)
  }

  /** Each failed field of an update body adds one default message, and
      a field left out adds none. */
  lemma UpdateMessages(input: ProductInput, isUrl: UrlCheck)
    ensures |UpdateErrors(input, isUrl)| ==
      Fails(input.title.None? || TitleOk(input.title.value))
      + Fails(input.description.None? || DescriptionOk(input.description.value))
      + Fails(input.price.None? || PriceOk(input.price.value))
      + Fails(input.image.None? || isUrl(input.image.value))
  {
  }

  /** The register chain: trimmed username of 3 to 30 characters, an email
      address, and a password of at least 6 characters. */
  function RegisterErrors(input: RegisterInput, checkEmail: EmailCheck): (errors: seq<string>)
    ensures errors == [] <==>
      && 3 <= |Trim(OrEmpty(input.username))| <= 30
      && input.email.Some? && checkEmail(input.email.value).Some?
      && |OrEmpty(input.password)| >= 6
    ensures |errors| <= 3
  {
    Check(3 <= |Trim(OrEmpty(input.username))| <= 30, UsernameMessage)
    + Check(input.email.Some? && checkEmail(input.email.value).Some?, EmailMessage)
    + Check(|OrEmpty(input.password)| >= 6, PasswordLengthMessage)
  }

  /** Each failed field of a register body reports its own message, once. */
  lemma RegisterMessages(input: RegisterInput, checkEmail: EmailCheck)
    ensures var errors := RegisterErrors(input, checkEmail);
      && (UsernameMessage in errors <==> !(3 <= |Trim(OrEmpty(input.username))| <= 30))
      && (EmailMessage in errors <==> !(input.email.Some? && checkEmail(input.email.value).Some?))
      && (PasswordLengthMessage in errors <==> |OrEmpty(input.password)| < 6)
      && |errors| == Fails(3 <= |Trim(OrEmpty(input.username))| <= 30)
                     + Fails(input.email.Some? && checkEmail(input.email.value).Some?)
                     + Fails(|OrEmpty(input.password)| >= 6)
  {
    ThreeChecks(3 <= |Trim(OrEmpty(input.username))| <= 30, UsernameMessage,
                input.email.Some? && checkEmail(input.email.value).Some?, EmailMessage,
                |OrEmpty(input.password)| >= 6, PasswordLengthMessage);
  }

  /** The login chain: an email address and a non-empty password. */
  function LoginErrors(input: LoginInput, checkEmail: EmailCheck): (errors: seq<string>)
    ensures errors == [] <==>
      input.email.Some? && checkEmail(input.email.value).Some? && |OrEmpty(input.password)| > 0
    ensures |errors| <= 2
  {
    Check(input.email.Some? && checkEmail(input.email.value).Some?, EmailMessage)
    + Check(|OrEmpty(input.password)| > 0, PasswordMessage)
  }

  /** Each failed field of a login body reports its own message, once. */
  lemma LoginMessages(input: LoginInput, checkEmail: EmailCheck)
    ensures var errors := LoginErrors(input, checkEmail);
      && (EmailMessage in errors <==> !(input.email.Some? && checkEmail(input.email.value).Some?))
      && (PasswordMessage in errors <==> OrEmpty(input.password) == "")
      && |errors| == Fails(input.email.Some? && checkEmail(input.email.value).Some?)
                     + Fails(|OrEmpty(input.password)| > 0)
  {
    TwoChecks(input.email.Some? && checkEmail(input.email.value).Some?, EmailMessage,
              |OrEmpty(input.password)| > 0, PasswordMessage);
  }
}
