/**
 * The request and the validation rules the controller runs before touching
 * any state. The `email` and `url` syntax rules and the `image|mimes:png`
 * file check belong to the framework and stay opaque to the controller: they
 * are given as predicates in a Syntax value. ImageMimesPng is a reference
 * definition of the file check: it accepts an upload whose content the
 * framework recognises as PNG, unless the extension of the client's file name
 * is one the framework treats as PHP.
 */
module Validation {
  import opened Wrappers
  import opened Tables

  /** An uploaded file: the name the client sent and the extension guessed from its content. */
  datatype Upload = Upload(clientName: string, guessedExtension: string)

  /**
   * The request fields the controller reads; None is an absent or null field
   * (for `id`, also one that is not an integer).
   */
  datatype Request = Request(
    id: Option<int>,
    name: Option<string>,
    email: Option<string>,
    website: Option<string>,
    logo: Option<Upload>)

  /** The fields a validation error can name. */
  datatype Field = Id | Name | Email | Website | Logo

  /** The framework's checks behind the `email`, `url` and `image|mimes:png` rules. */
  datatype Syntax = Syntax(isEmail: string -> bool, isUrl: string -> bool, isPngImage: Upload -> bool)

  /** The characters PHP's trim() strips. */
  predicate TrimChar(c: char) {
    c in {' ', '\t', '\n', '\r', '\0', '\U{B}'}
  }

  /** A string PHP's trim() reduces to "": the framework's `required` rejects it. */
  predicate Blank(s: string) {
    forall i :: 0 <= i < |s| ==> TrimChar(s[i])
  }

  /** The `required` rule on a text field. */
  predicate Required(v: Option<string>) {
    v.Some? && !Blank(v.value)
  }

  /**
   * `unique:company,email[,except]`: some company other than the excepted id
   * already has this email.
   */
  predicate EmailTaken(companies: CompanyTable, email: string, except: Option<int>) {
    exists id :: id in companies && Some(id) != except && companies[id].email == email
  }

  /** `required|email|unique:company,email[,except]` */
  predicate EmailAccepted(companies: CompanyTable, email: Option<string>, except: Option<int>, syntax: Syntax) {
    Required(email) && syntax.isEmail(email.value) && !EmailTaken(companies, email.value, except)
  }

  /**
   * `nullable|url`: the framework runs `url` only on a value that is not
   * blank, so an absent or blank website passes.
   */
  predicate WebsiteAccepted(website: Option<string>, syntax: Syntax) {
    website.None? || Blank(website.value) || syntax.isUrl(website.value)
  }

  /** The text after the last '.' of `name`, or None when `name` has no '.'. */
  function AfterLastDot(name: string): (ext: Option<string>)
    ensures ext.Some? ==> |ext.value| < |name| && name[|name| - |ext.value| - 1] == '.'
    ensures ext.Some? ==> ext.value == name[|name| - |ext.value|..]
    ensures ext.Some? ==> forall i :: 0 <= i < |ext.value| ==> ext.value[i] != '.'
    ensures ext.None? ==> forall i :: 0 <= i < |name| ==> name[i] != '.'
    decreases |name|
  {
    if name == [] then None
    else if name[|name| - 1] == '.' then Some("")
    else match AfterLastDot(name[..|name| - 1])
      case None => None
      case Some(e) => Some(e + [name[|name| - 1]])
  }

  /**
   * `pathinfo($name, PATHINFO_EXTENSION)` of the client's file name: the text
   * after the last '.', or "" when there is no '.'.
   */
  function ClientExtension(name: string): string {
    match AfterLastDot(name)
    case None => ""
    case Some(e) => e
  }

  /** strtolower(): ASCII upper-case letters become lower-case. */
  function Lower(s: string): (r: string)
    ensures |r| == |s|
    ensures forall i :: 0 <= i < |s| && !('A' <= s[i] <= 'Z') ==> r[i] == s[i]
  {
    seq(|s|, i requires 0 <= i < |s| => if 'A' <= s[i] <= 'Z' then (s[i] as int + 32) as char else s[i])
  }

  /** trim(): the PHP whitespace at both ends removed. */
  function Trim(s: string): (r: string)
    ensures r != [] ==> !TrimChar(r[0]) && !TrimChar(r[|r| - 1])
    decreases |s|
  {
    if s != [] && TrimChar(s[0]) then Trim(s[1..])
    else if s != [] && TrimChar(s[|s| - 1]) then Trim(s[..|s| - 1])
    else s
  }

  /** The client extensions the framework's `image` and `mimes` rules refuse outright. */
  const PhpExtensions: set<string> := {"php", "php3", "php4", "php5", "php7", "php8", "phtml", "phar"}

  /** An upload whose client extension, trimmed and lower-cased, is a PHP extension. */
  predicate PhpLikeUpload(u: Upload) {
    Trim(Lower(ClientExtension(u.clientName))) in PhpExtensions
  }

  /**
   * The framework's `image|mimes:png` check: the content is PNG and the
   * client extension is not PHP-like (`png` does not re-admit `php`).
   */
  predicate ImageMimesPng(u: Upload) {
    u.guessedExtension == "png" && !PhpLikeUpload(u)
  }

  /** `nullable|image|mimes:png`: no upload, or one the file check accepts. */
  predicate LogoAccepted(logo: Option<Upload>, syntax: Syntax) {
    logo.None? || syntax.isPngImage(logo.value)
  }

  /** The extension of `base.ext` is `ext`, whatever `base` holds. */
  lemma {:induction false} ClientExtensionOfDotted(base: string, ext: string)
    requires forall i :: 0 <= i < |ext| ==> ext[i] != '.'
    ensures ClientExtension(base + "." + ext) == ext
  {
    AfterLastDotOfDotted(base, ext);
  }

  lemma {:induction false} AfterLastDotOfDotted(base: string, ext: string)
    requires forall i :: 0 <= i < |ext| ==> ext[i] != '.'
    ensures AfterLastDot(base + "." + ext) == Some(ext)
    decreases |ext|
  {
    var name := base + "." + ext;
    if ext == [] {
      assert name[|name| - 1] == '.';
    } else {
      assert name[|name| - 1] == ext[|ext| - 1];
      assert name[..|name| - 1] == base + "." + ext[..|ext| - 1];
      AfterLastDotOfDotted(base, ext[..|ext| - 1]);
      assert ext == ext[..|ext| - 1] + [ext[|ext| - 1]];
    }
  }

  /** A PNG uploaded under any name ending in ".png" passes the file check. */
  lemma PngNamedLogoAccepted(base: string)
    ensures ImageMimesPng(Upload(base + ".png", "png"))
  {
    assert base + ".png" == base + "." + "png";
    ClientExtensionOfDotted(base, "png");
    PngIsNotPhpLike();
  }

  /** A PNG uploaded under a name ending in ".php" fails the file check. */
  lemma PhpNamedLogoRejected(base: string)
    ensures !ImageMimesPng(Upload(base + ".php", "png"))
  {
    assert base + ".php" == base + "." + "php";
    ClientExtensionOfDotted(base, "php");
    PhpIsPhpLike();
  }

  lemma PngIsNotPhpLike()
    ensures Trim(Lower("png")) !in PhpExtensions
  {
    assert Lower("png") == "png";
    assert Trim("png") == "png";
  }

  lemma PhpIsPhpLike()
    ensures Trim(Lower("php")) in PhpExtensions
  {
    assert Lower("php") == "php";
    assert Trim("php") == "php";
  }

  /** The fields that fail the rules of `store`; uniqueness is checked against every company. */
  function StoreErrors(companies: CompanyTable, req: Request, syntax: Syntax): (errs: set<Field>)
    ensures Id !in errs
    ensures errs == {} <==>
      Required(req.name) && EmailAccepted(companies, req.email, None, syntax)
      && WebsiteAccepted(req.website, syntax) && LogoAccepted(req.logo, syntax)
  {
    (if Required(req.name) then {} else {Name})
    + (if EmailAccepted(companies, req.email, None, syntax) then {} else {Email})
    + (if WebsiteAccepted(req.website, syntax) then {} else {Website})
    + (if LogoAccepted(req.logo, syntax) then {} else {Logo})
  }

  /**
   * The fields that fail the rules of `update`; uniqueness ignores the row
   * whose id is the request's id.
   */
  function UpdateErrors(companies: CompanyTable, req: Request, syntax: Syntax): (errs: set<Field>)
    ensures errs == {} <==>
      req.id.Some? && Required(req.name) && EmailAccepted(companies, req.email, req.id, syntax)
      && WebsiteAccepted(req.website, syntax) && LogoAccepted(req.logo, syntax)
  {
    (if req.id.Some? then {} else {Id})
    + (if Required(req.name) then {} else {Name})
    + (if EmailAccepted(companies, req.email, req.id, syntax) then {} else {Email})
    + (if WebsiteAccepted(req.website, syntax) then {} else {Website})
    + (if LogoAccepted(req.logo, syntax) then {} else {Logo})
  }

  /** The fields that fail the rules of `destroy`: only `id => required|int`. */
  function DestroyErrors(req: Request): (errs: set<Field>)
    ensures errs == {} <==> req.id.Some?
    ensures errs <= {Id}
  {
    if req.id.Some? then {} else {Id}
  }

  /** A blank website passes `nullable|url` of both actions, whatever the URL check says. */
  lemma BlankWebsitePasses(companies: CompanyTable, req: Request, syntax: Syntax)
    requires req.website.Some? && Blank(req.website.value)
    ensures Website !in StoreErrors(companies, req, syntax)
    ensures Website !in UpdateErrors(companies, req, syntax)
  {
  }

  /** Resubmitting a company's own email passes the uniqueness rule of `update`. */
  lemma UpdateAcceptsOwnEmail(companies: CompanyTable, id: int, syntax: Syntax)
    requires EmailsUnique(companies) && id in companies
    requires syntax.isEmail(companies[id].email) && !Blank(companies[id].email)
    ensures EmailAccepted(companies, Some(companies[id].email), Some(id), syntax)
  {
  }

  /** Another company's email fails the uniqueness rule of `update`. */
  lemma UpdateRejectsOthersEmail(companies: CompanyTable, req: Request, other: int, syntax: Syntax)
    requires other in companies && req.id != Some(other)
    requires req.email == Some(companies[other].email)
    ensures Email in UpdateErrors(companies, req, syntax)
  {
  }

  /** Any existing company's email fails the uniqueness rule of `store`. */
  lemma StoreRejectsTakenEmail(companies: CompanyTable, req: Request, other: int, syntax: Syntax)
    requires other in companies && req.email == Some(companies[other].email)
    ensures Email in StoreErrors(companies, req, syntax)
  {
  }
}
