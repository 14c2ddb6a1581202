/**
 * Concrete scenarios of the controller on a small database, each showing
 * one behaviour of the source on a specific input.
 */
module Scenarios {
  import opened Wrappers
  import opened Filenames
  import opened Tables
  import opened Validation
  import opened Controllers

  /** The second in which the scenarios' logos are uploaded. */
  const UploadTime: nat := 1700000000

  /**
   * Email and URL checks that accept everything, which the scenarios below do
   * not depend on, and the framework's file check.
   */
  function Lenient(): Syntax {
    Syntax(s => true, s => true, ImageMimesPng)
  }

  /** One company, id 1, whose logo was stored at time UploadTime as "acme.png". */
  method AcmeWithLogo() returns (c: CompanyController)
    ensures fresh(c) && c.Valid() && c.syntax == Lenient()
    ensures c.companies == map[1 := Company("Acme", "a@acme.com", None, Some(LogoFilename(UploadTime, "acme.png")))]
    ensures c.blobs == {LogoFilename(UploadTime, "acme.png")} && c.employees == map[]
  {
    var logo := LogoFilename(UploadTime, "acme.png");
    c := new CompanyController(Lenient(), map[1 := Company("Acme", "a@acme.com", None, Some(logo))], map[], {logo}, 2);
  }

  /** Uploading "acme.png" again in the second the current logo was stored. */
  function ReuploadRequest(): Request {
    Request(Some(1), Some("Acme"), Some("a@acme.com"), None, Some(Upload("acme.png", "png")))
  }

  /** The re-upload passes every rule of `update` against the one-company table. */
  lemma ReuploadRequestValid(companies: CompanyTable)
    requires companies == map[1 := Company("Acme", "a@acme.com", None, Some(LogoFilename(UploadTime, "acme.png")))]
    ensures UpdateErrors(companies, ReuploadRequest(), Lenient()) == {}
  {
    assert !Blank("Acme") && !Blank("a@acme.com") by { assert "Acme"[0] == 'A'; assert "a@acme.com"[0] == 'a'; }
    assert "acme" + ".png" == "acme.png";
    PngNamedLogoAccepted("acme");
  }

  /**
   * As written, re-uploading a logo under the same client name within the
   * same second deletes the file just written: the update succeeds, yet the
   * row names a missing file.
   */
  method SameSecondReuploadAsWritten() returns (resp: Response, logo: Option<string>, stored: bool)
    ensures resp == Json(201, UpdatedMessage)
    ensures logo == Some(LogoFilename(UploadTime, "acme.png")) && !stored
  {
    var c := AcmeWithLogo();
    ReuploadRequestValid(c.companies);
    resp := c.UpdateAsWritten(ReuploadRequest(), UploadTime);
    logo := c.companies[1].logo;
    stored := logo.value in c.blobs;
  }

  /**
   * With the old-logo removal skipped for an identical name, the same
   * re-upload succeeds and the row's file stays stored.
   */
  method SameSecondReupload() returns (resp: Response, logo: Option<string>, stored: bool)
    ensures resp == Json(201, UpdatedMessage)
    ensures logo == Some(LogoFilename(UploadTime, "acme.png")) && stored
  {
    var c := AcmeWithLogo();
    ReuploadRequestValid(c.companies);
    resp := c.Update(ReuploadRequest(), UploadTime);
    logo := c.companies[1].logo;
    stored := logo.value in c.blobs;
  }

  /**
   * Updating an id no company has: as written the action fails with a server
   * error before the check that answers 422; reordered, it answers 422.
   */
  method UpdateMissingCompany() returns (asWritten: Response, reordered: Response)
    ensures asWritten == ServerError
    ensures reordered == Json(422, UpdateMissingMessage)
  {
    var req := Request(Some(7), Some("Acme"), Some("b@acme.com"), None, None);
    var c := AcmeWithLogo();
    assert !Blank("Acme") && !Blank("b@acme.com") by { assert "Acme"[0] == 'A'; assert "b@acme.com"[0] == 'b'; }
    assert "a@acme.com" != "b@acme.com" by { assert "a@acme.com"[0] != "b@acme.com"[0]; }
    asWritten := c.UpdateAsWritten(req, UploadTime);
    c := AcmeWithLogo();
    reordered := c.Update(req, UploadTime);
  }

  /** Deleting company 1, referenced by employees 5 and 6, keeps employee 7 of company 2. */
  method CascadeDelete() returns (resp: Response, companies: CompanyTable, employees: EmployeeTable)
    ensures resp == Json(200, DeletedMessage)
    ensures companies.Keys == {2} && employees == map[7 := 2]
  {
    var acme := Company("Acme", "a@acme.com", None, None);
    var globex := Company("Globex", "g@globex.com", None, None);
    var c := new CompanyController(Lenient(), map[1 := acme, 2 := globex], map[5 := 1, 6 := 1, 7 := 2], {}, 3);
    resp := c.Destroy(Request(Some(1), None, None, None, None));
    companies, employees := c.companies, c.employees;
  }
}
