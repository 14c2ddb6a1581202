/**
 * CompanyController: the `store`, `update` and `destroy` actions over the
 * company table, the employee table and the logo files in storage.
 *
 * Each action validates the whole request before it changes anything, then
 * runs a short fixed sequence of steps. The ghost `log` records those steps
 * in the order they happen, so the contracts can say that a logo file is
 * written before the row that names it is saved, that an old logo is removed
 * only after the new row is saved, and that a company's employees are deleted
 * before the company.
 */
module Controllers {
  import opened Wrappers
  import opened Filenames
  import opened Tables
  import opened Validation

  /** What an action answers. */
  datatype Response =
      /** `response()->json(['message' => message], status)` */
    | Json(status: int, message: string)
      /** the ValidationException thrown by `validate()`, which the framework renders */
    | ValidationFailed(errors: set<Field>)
      /** the ModelNotFoundException of `findOrFail`, which the catch does not handle */
    | NotFound
      /** the ErrorException of reading a property of null, which the catch does not handle */
    | ServerError

  const CreatedMessage := "A company has been created successfully"
  const UpdatedMessage := "The selected company has been updated successfully"
  const UpdateMissingMessage := "The selected company cannot be found - update has failed!"
  const DeletedMessage := "The selected company has been deleted"

  /** The externally visible steps an action takes, in order. */
  datatype Step =
    | WriteBlob(name: string)
    | SaveCompany(id: int)
    | DeleteBlob(name: string)
    | DeleteEmployeesOf(companyId: int)
    | DeleteCompany(id: int)

  /** The stored name of the request's logo, when one was uploaded at time `now`. */
  function NewLogoName(req: Request, now: nat): (r: Option<string>)
    ensures r.Some? <==> req.logo.Some?
    ensures r.Some? ==> SplitLogoFilename(r.value) == Some((now, req.logo.value.clientName))
  {
    if req.logo.Some? then Some(LogoFilename(now, req.logo.value.clientName)) else None
  }

  /** The row `store` saves: the request's fields, and the new logo name or null. */
  function CreatedRow(req: Request, now: nat): (row: Company)
    requires req.name.Some? && req.email.Some?
    ensures row.name == req.name.value && row.email == req.email.value
    ensures row.website == req.website
    ensures row.logo.None? <==> req.logo.None?
    ensures row.logo.Some? ==> SplitLogoFilename(row.logo.value) == Some((now, req.logo.value.clientName))
  {
    Company(req.name.value, req.email.value, req.website, NewLogoName(req, now))
  }

  /**
   * The row `update` saves over `row`: name, email and website are overwritten
   * (an absent website clears it), the logo only when a new one was uploaded.
   */
  function UpdatedRow(row: Company, req: Request, now: nat): (updated: Company)
    requires req.name.Some? && req.email.Some?
    ensures updated.name == req.name.value && updated.email == req.email.value
    ensures updated.website == req.website
    ensures req.logo.None? ==> updated.logo == row.logo
    ensures req.logo.Some? ==>
      updated.logo.Some? && SplitLogoFilename(updated.logo.value) == Some((now, req.logo.value.clientName))
  {
    Company(req.name.value, req.email.value, req.website,
            if req.logo.Some? then NewLogoName(req, now) else row.logo)
  }

  class CompanyController {
    /** The framework's checks behind the `email`, `url` and `image|mimes:png` rules. */
    const syntax: Syntax
    /** The company table. */
    var companies: CompanyTable
    /** The employee table, as each employee's company_id. */
    var employees: EmployeeTable
    /** The names of the files in public storage. */
    var blobs: set<string>
    /** The id the next saved company receives (the table's auto-increment). */
    var nextId: int
    /** The steps taken so far, oldest first. */
    ghost var log: seq<Step>

    /** Unique company emails, the employee foreign key, and the auto-increment counter. */
    ghost predicate Valid()
      reads this
    {
      Consistent(companies, employees, nextId)
    }

    /** A controller over an existing, consistent database. */
    constructor (syntax: Syntax, companies: CompanyTable, employees: EmployeeTable, blobs: set<string>, nextId: int)
      requires Consistent(companies, employees, nextId)
      ensures Valid()
      ensures this.syntax == syntax && this.companies == companies && this.employees == employees
      ensures this.blobs == blobs && this.nextId == nextId && log == []
    {
      this.syntax := syntax;
      this.companies := companies;
      this.employees := employees;
      this.blobs := blobs;
      this.nextId := nextId;
      log := [];
    }

    /**
     * `Image::make($logo)->resize(100, 100)->save(...)`: a file now exists
     * under the generated name, replacing any file of that name.
     */
    method SaveLogo(upload: Upload, now: nat) returns (filename: string)
      modifies this`blobs, this`log
      ensures filename == LogoFilename(now, upload.clientName)
      ensures blobs == old(blobs) + {filename}
      ensures log == old(log) + [WriteBlob(filename)]
    {
      filename := LogoFilename(now, upload.clientName);
      blobs := blobs + {filename};
      log := log + [WriteBlob(filename)];
    }

    /** `Storage::delete(...)` */
    method RemoveBlob(name: string)
      modifies this`blobs, this`log
      ensures blobs == old(blobs) - {name}
      ensures log == old(log) + [DeleteBlob(name)]
    {
      blobs := blobs - {name};
      log := log + [DeleteBlob(name)];
    }

    /**
     * `store`: validates the request, writes the uploaded logo if there is
     * one, then saves the new row under the next id.
     */
    method Store(req: Request, now: nat) returns (resp: Response)
      requires Valid()
      modifies this
      ensures Valid()
      ensures employees == old(employees)
      ensures StoreErrors(old(companies), req, syntax) != {} ==>
        && resp == ValidationFailed(StoreErrors(old(companies), req, syntax))
        && companies == old(companies) && blobs == old(blobs)
        && nextId == old(nextId) && log == old(log)
      ensures StoreErrors(old(companies), req, syntax) == {} ==>
        && resp == Json(201, CreatedMessage)
        && old(nextId) !in old(companies)
        && companies == old(companies)[old(nextId) := CreatedRow(req, now)]
        && nextId == old(nextId) + 1
      ensures StoreErrors(old(companies), req, syntax) == {} && req.logo.None? ==>
        && companies[old(nextId)].logo == None
        && blobs == old(blobs)
        && log == old(log) + [SaveCompany(old(nextId))]
      ensures StoreErrors(old(companies), req, syntax) == {} && req.logo.Some? ==>
        var filename := LogoFilename(now, req.logo.value.clientName);
        && companies[old(nextId)].logo == Some(filename)
        && blobs == old(blobs) + {filename}
        && log == old(log) + [WriteBlob(filename), SaveCompany(old(nextId))]
      ensures LogosStored(old(companies), old(blobs)) ==> LogosStored(companies, blobs)
    {
      var errs := StoreErrors(companies, req, syntax);
      if errs != {} {
        return ValidationFailed(errs);
      }
      var logo: Option<string> := None;
      if req.logo.Some? {
        var filename := SaveLogo(req.logo.value, now);
        logo := Some(filename);
      }
      var id := nextId;
      companies := companies[id := Company(req.name.value, req.email.value, req.website, logo)];
      nextId := nextId + 1;
      log := log + [SaveCompany(id)];
      resp := Json(201, CreatedMessage);
    }

    /**
     * The part of `update` both orderings share: write the new logo if one was
     * uploaded, then overwrite the row's fields and save it.
     */
    method OverwriteRow(id: int, req: Request, now: nat) returns (newLogo: Option<string>)
      requires Valid() && id in companies && req.id == Some(id)
      requires UpdateErrors(companies, req, syntax) == {}
      modifies this`companies, this`blobs, this`log
      ensures Valid()
      ensures newLogo == NewLogoName(req, now)
      ensures companies == old(companies)[id := UpdatedRow(old(companies)[id], req, now)]
      ensures newLogo.None? ==> blobs == old(blobs) && log == old(log) + [SaveCompany(id)]
      ensures newLogo.Some? ==>
        && blobs == old(blobs) + {newLogo.value}
        && log == old(log) + [WriteBlob(newLogo.value), SaveCompany(id)]
    {
      var row := companies[id];
      newLogo := None;
      if req.logo.Some? {
        var filename := SaveLogo(req.logo.value, now);
        newLogo := Some(filename);
        row := row.(logo := newLogo);
      }
      row := row.(name := req.name.value, email := req.email.value, website := req.website);
      companies := companies[id := row];
      log := log + [SaveCompany(id)];
    }

    /**
     * `update`, with the lookup checked before the row is read and with the
     * old logo kept when the new file has the same name (see the README's
     * findings; UpdateAsWritten is the action as the controller writes it).
     */
    method Update(req: Request, now: nat) returns (resp: Response)
      requires Valid()
      modifies this
      ensures Valid()
      ensures employees == old(employees) && nextId == old(nextId)
      ensures UpdateErrors(old(companies), req, syntax) != {} ==>
        && resp == ValidationFailed(UpdateErrors(old(companies), req, syntax))
        && companies == old(companies) && blobs == old(blobs) && log == old(log)
      ensures UpdateErrors(old(companies), req, syntax) == {} && req.id.value !in old(companies) ==>
        && resp == Json(422, UpdateMissingMessage)
        && companies == old(companies) && blobs == old(blobs) && log == old(log)
      ensures UpdateErrors(old(companies), req, syntax) == {} && req.id.value in old(companies) ==>
        && resp == Json(201, UpdatedMessage)
        && companies == old(companies)[req.id.value := UpdatedRow(old(companies)[req.id.value], req, now)]
      ensures UpdateErrors(old(companies), req, syntax) == {} && req.id.value in old(companies) && req.logo.None? ==>
        && blobs == old(blobs)
        && log == old(log) + [SaveCompany(req.id.value)]
      ensures UpdateErrors(old(companies), req, syntax) == {} && req.id.value in old(companies) && req.logo.Some? ==>
        var id, filename := req.id.value, LogoFilename(now, req.logo.value.clientName);
        var previous := old(companies)[id].logo;
        && companies[id].logo == Some(filename)
        && filename in blobs
        && if previous.Some? && previous.value != filename && previous.value in old(blobs) then
             && blobs == old(blobs) + {filename} - {previous.value}
             && log == old(log) + [WriteBlob(filename), SaveCompany(id), DeleteBlob(previous.value)]
           else
             && blobs == old(blobs) + {filename}
             && log == old(log) + [WriteBlob(filename), SaveCompany(id)]
      ensures LogosStored(old(companies), old(blobs))
        && (req.id.Some? && req.id.value in old(companies) ==> LogoNotShared(old(companies), req.id.value))
        ==> LogosStored(companies, blobs)
    {
      var errs := UpdateErrors(companies, req, syntax);
      if errs != {} {
        return ValidationFailed(errs);
      }
      var id := req.id.value;
      if id !in companies {
        return Json(422, UpdateMissingMessage);
      }
      var previous := companies[id].logo;
      var newLogo := OverwriteRow(id, req, now);
      if newLogo.Some? && previous.Some? && previous != newLogo && previous.value in blobs {
        RemoveBlob(previous.value);
      }
      resp := Json(201, UpdatedMessage);
    }

    /**
     * `update` as the controller writes it: the old logo is read from the
     * looked-up row before the row is checked for null, and the old file is
     * removed after the save whenever a new logo was uploaded and a file of
     * the old name exists.
     */
    method UpdateAsWritten(req: Request, now: nat) returns (resp: Response)
      requires Valid()
      modifies this
      ensures Valid()
      ensures employees == old(employees) && nextId == old(nextId)
      ensures UpdateErrors(old(companies), req, syntax) != {} ==>
        && resp == ValidationFailed(UpdateErrors(old(companies), req, syntax))
        && companies == old(companies) && blobs == old(blobs) && log == old(log)
      ensures UpdateErrors(old(companies), req, syntax) == {} && req.id.value !in old(companies) ==>
        && resp == ServerError
        && companies == old(companies) && blobs == old(blobs) && log == old(log)
      ensures UpdateErrors(old(companies), req, syntax) == {} && req.id.value in old(companies) ==>
        && resp == Json(201, UpdatedMessage)
        && companies == old(companies)[req.id.value := UpdatedRow(old(companies)[req.id.value], req, now)]
      ensures UpdateErrors(old(companies), req, syntax) == {} && req.id.value in old(companies) && req.logo.None? ==>
        && blobs == old(blobs)
        && log == old(log) + [SaveCompany(req.id.value)]
      ensures UpdateErrors(old(companies), req, syntax) == {} && req.id.value in old(companies) && req.logo.Some? ==>
        var id, filename := req.id.value, LogoFilename(now, req.logo.value.clientName);
        var previous := old(companies)[id].logo;
        && companies[id].logo == Some(filename)
        && (previous == Some(filename) ==> filename !in blobs)
        && if previous.Some? && previous.value in old(blobs) + {filename} then
             && blobs == old(blobs) + {filename} - {previous.value}
             && log == old(log) + [WriteBlob(filename), SaveCompany(id), DeleteBlob(previous.value)]
           else
             && blobs == old(blobs) + {filename}
             && log == old(log) + [WriteBlob(filename), SaveCompany(id)]
    {
      var errs := UpdateErrors(companies, req, syntax);
      if errs != {} {
        return ValidationFailed(errs);
      }
      var id := req.id.value;
      if id !in companies {
        // `$editCompany->logo` on null: the warning becomes an ErrorException
        // before the null check that would have answered 422.
        return ServerError;
      }
      var previous := companies[id].logo;
      var newLogo := OverwriteRow(id, req, now);
      if newLogo.Some? && previous.Some? && previous.value in blobs {
        RemoveBlob(previous.value);
      }
      resp := Json(201, UpdatedMessage);
    }

    /**
     * `destroy`: deletes the company's employees, then the company. When no
     * company has the id, `findOrFail` fails after the employee delete ran.
     * The company's logo file is left in storage.
     */
    method Destroy(req: Request) returns (resp: Response)
      requires Valid()
      modifies this
      ensures Valid()
      ensures blobs == old(blobs) && nextId == old(nextId)
      ensures req.id.None? ==>
        && resp == ValidationFailed(DestroyErrors(req))
        && companies == old(companies) && employees == old(employees) && log == old(log)
      ensures req.id.Some? ==>
        && employees == EmployeesWithout(old(employees), req.id.value)
        && companies == old(companies) - {req.id.value}
        && (forall e :: e in employees ==> employees[e] != req.id.value)
      ensures req.id.Some? && req.id.value in old(companies) ==>
        && resp == Json(200, DeletedMessage)
        && log == old(log) + [DeleteEmployeesOf(req.id.value), DeleteCompany(req.id.value)]
      ensures req.id.Some? && req.id.value !in old(companies) ==>
        && resp == NotFound
        && employees == old(employees)
        && log == old(log) + [DeleteEmployeesOf(req.id.value)]
      ensures LogosStored(old(companies), old(blobs)) ==> LogosStored(companies, blobs)
    {
      var errs := DestroyErrors(req);
      if errs != {} {
        return ValidationFailed(errs);
      }
      var id := req.id.value;
      CascadeKeepsForeignKeys(companies, employees, id);
      employees := EmployeesWithout(employees, id);
      log := log + [DeleteEmployeesOf(id)];
      assert ForeignKeysHold(companies, employees);
      if id !in companies {
        return NotFound;
      }
      companies := companies - {id};
      log := log + [DeleteCompany(id)];
      resp := Json(200, DeletedMessage);
    }
  }
}
