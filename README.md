# Company lifecycle of the caremaster backend, in Dafny

This project models the company controller of a small Laravel CRUD backend:
the `store`, `update` and `destroy` actions of
`app/Http/Controllers/CompanyController.php`. The model works on three
parts of state:

- the **company table**: a map from id to a row with name, email, optional
  website and optional logo file name;
- the **employee table**: each employee id mapped to its `company_id`;
- the **public storage**: the set of stored logo file names.

`CompanyController` is a class with those three parts as fields, plus the
table's auto-increment counter and a ghost log of the steps taken. Each
action is a method whose postcondition gives the whole new state and
response for every case:

- validation failure;
- the id lookup failing;
- the success path with and without an uploaded logo.

The log records the order of the externally visible steps:

- a logo file is written before the row that names it is saved;
- an old logo is deleted only after the new row is saved;
- employees are deleted before their company.

The object invariant `Valid()` holds three constraints:

- no two companies share an email, which the `unique:company,email` rules of `store` and `update` maintain;
- the foreign key `employee.company_id -> company.id` declared in
  `database/migrations/2023_05_28_073451_create_employee_table.php`;
- every company id is below the auto-increment counter.

Every action preserves `Valid()`.

Framework collaborators become simple steps on this state:

- The validator's rules are predicates (`validation.dfy`). The `email` and
  `url` syntax checks and the `image|mimes:png` file check are opaque and are
  given to the controller as function values. `ImageMimesPng` is a
  reference definition of the file check, which the scenarios use.
- `time()` is a natural-number parameter `now`.
- `Image::make(...)->save(...)` adds the generated name to the stored files.
- `Storage::delete` removes it.

Files:

- `wrappers.dfy`: `Option`.
- `filenames.dfy`: the stored logo name `time() . '_' . originalName`. It has
  an inverse, `SplitLogoFilename`, which shows that distinct (time, name)
  pairs give distinct names.
- `tables.dfy`: rows, tables, the schema invariants and the cascading
  employee delete.
- `validation.dfy`: the request, the rule predicates and the error sets of
  each action.
- `company_controller.dfy`: the controller class.
- `scenarios.dfy`: concrete scenarios that show the findings below and the
  cascade.

The model follows the code as written in these places:

- `store` writes the logo file before it saves the row. The safer order
  (row first, then the file) is not what the code does.
- `update` answers 201, not 200.
- `destroy` does not delete the company's logo file, so that file stays in
  storage.
- When the same second and the same client file name meet, the stored names
  collide.

## Model

| member | source | states |
|---|---|---|
| `Filenames.Decimal` | app/Http/Controllers/CompanyController.php:51 | the time part of a logo name is non-empty, all digits, and has no leading zero unless the time is 0 |
| `Filenames.ParseDecimalInvertsDecimal` | app/Http/Controllers/CompanyController.php:51 | reading the digits of the time part back gives the time |
| `Filenames.DecimalInjective` | app/Http/Controllers/CompanyController.php:51 | two times give the same time part exactly when they are equal |
| `Filenames.LogoFilename` | app/Http/Controllers/CompanyController.php:51 | the generated logo name splits back into the upload time and the client's original name |
| `Filenames.LogoFilenameCollision` | app/Http/Controllers/CompanyController.php:96 | two uploads get the same stored name if and only if they share both the second and the original name |
| `Tables.CascadeKeepsForeignKeys` | database/migrations/2023_05_28_073451_create_employee_table.php:23-25 | deleting a company's employees keeps the foreign key, before and after the company itself is removed; for an id no company has, the delete changes nothing |
| `Tables.CompanyFirstBreaksForeignKey` | app/Http/Controllers/CompanyController.php:134-135 | removing a company while an employee still references it breaks the foreign key, so the employee delete must come first |
| `Validation.StoreErrors` | app/Http/Controllers/CompanyController.php:40-45 | `store` validation passes exactly when the name is present, the email is present, well-formed and used by no company, the website is absent, blank or a URL, and the logo is absent or passes the file check; it never names `id` |
| `Validation.PngNamedLogoAccepted` | app/Http/Controllers/CompanyController.php:44 | a PNG uploaded under any name ending in ".png" passes the `image` and `mimes:png` rules |
| `Validation.PhpNamedLogoRejected` | app/Http/Controllers/CompanyController.php:44 | a PNG uploaded under a name ending in ".php" fails the `image` and `mimes:png` rules, whatever its content |
| `Validation.UpdateErrors` | app/Http/Controllers/CompanyController.php:77-83 | `update` validation passes exactly when the id is an integer and the other rules hold, with email uniqueness ignoring the row whose id is the request's id |
| `Validation.BlankWebsitePasses` | app/Http/Controllers/CompanyController.php:43 | a website that trims to the empty string never fails the website rule, in `store` or in `update`, because `url` is not run on a blank value |
| `Validation.UpdateAcceptsOwnEmail` | app/Http/Controllers/CompanyController.php:80 | resubmitting a company's own email passes the uniqueness rule of `update` |
| `Validation.UpdateRejectsOthersEmail` | app/Http/Controllers/CompanyController.php:80 | an email that another company already has fails the uniqueness rule of `update` |
| `Validation.StoreRejectsTakenEmail` | app/Http/Controllers/CompanyController.php:42 | an email that any company already has fails the uniqueness rule of `store` |
| `Controllers.CreatedRow` | app/Http/Controllers/CompanyController.php:53-58 | the new row takes name, email and website from the request (an absent website is null); its logo is null exactly when no logo was uploaded, and otherwise names the upload time and the client's original name |
| `Controllers.UpdatedRow` | app/Http/Controllers/CompanyController.php:98-103 | the saved row takes name, email and website from the request (an absent website clears it); without an upload the logo is kept, with one it names the upload time and the client's original name |
| `Controllers.NewLogoName` | app/Http/Controllers/CompanyController.php:49-51 | a stored name exists exactly when a logo was uploaded, and it encodes the request time and the client's original name |
| `Controllers.CompanyController.SaveLogo` | app/Http/Controllers/CompanyController.php:52 | saving the resized image adds the generated name to storage (an existing file of that name is overwritten) and logs the write |
| `Controllers.CompanyController.RemoveBlob` | app/Http/Controllers/CompanyController.php:109 | deleting a file removes exactly that name from storage and logs the delete |
| `Controllers.CompanyController.Store` | app/Http/Controllers/CompanyController.php:38-69 | on a validation failure nothing changes. Otherwise exactly one row is added under a fresh id, with name, email and website from the request (absent website null) and the new logo name or null, and the reply is 201. A logo file is added and written before the row is saved; without a logo no file is added. Employees are never touched, and the invariant and "every logo is stored" are kept |
| `Controllers.CompanyController.OverwriteRow` | app/Http/Controllers/CompanyController.php:94-104 | the new logo, if any, is written first; then name, email and website are overwritten (absent website cleared), the logo replaced only when a new one came, and the row saved; the invariant holds |
| `Controllers.CompanyController.Update` | app/Http/Controllers/CompanyController.php:75-121 | on a validation failure or a missing id nothing changes (422 for the missing id). Otherwise only the target row changes, as `UpdatedRow` gives it, and employees never change. Without a new logo, storage is untouched. With one, the new file is written before the save. The old file is deleted after the save, and only if it existed and has a different name, so the row's logo is always stored. The invariant holds, and "every logo is stored" is kept when the old logo was not shared |
| `Controllers.CompanyController.UpdateAsWritten` | app/Http/Controllers/CompanyController.php:75-121 | as the code is written, a missing id ends in a server error with no change, and the 422 branch is never reached. A new logo with the same name as the old one is deleted right after it is written, so the row then names a missing file. Everything else is as in `Update` |
| `Controllers.CompanyController.Destroy` | app/Http/Controllers/CompanyController.php:126-145 | without an integer id nothing changes. Otherwise every employee of that id is deleted first, then the company, and the reply is 200; no employee references the id afterwards. Other companies, other employees and storage are unchanged, and the foreign key still holds. For an id no company has, the employee delete runs and then the action fails with not-found |
| `Scenarios.SameSecondReuploadAsWritten` | app/Http/Controllers/CompanyController.php:107-111 | re-uploading "acme.png" in the second the current logo was stored passes validation and is answered 201, yet leaves the row naming a file that is no longer stored |
| `Scenarios.SameSecondReupload` | app/Http/Controllers/CompanyController.php:107-111 | with the corrected cleanup the same re-upload is answered 201 and leaves the row's logo file stored |
| `Scenarios.UpdateMissingCompany` | app/Http/Controllers/CompanyController.php:86-92 | updating an id no company has is a server error as written and the 422 reply once the lookup is checked first |
| `Scenarios.CascadeDelete` | app/Http/Controllers/CompanyController.php:133-138 | deleting company 1, referenced by employees 5 and 6, leaves company 2 and only its employee 7 |

## Findings

| source | as written | input that shows it | evidently intended | confidence | as-written member | corrected member |
|---|---|---|---|---|---|---|
| app/Http/Controllers/CompanyController.php:86-92 | `$editCompany->logo` is read before `$editCompany` is checked for null. The framework turns that warning into an exception that the `HttpException` catch does not handle, so the 422 "cannot be found" reply is unreachable. | `update` with id 7, a valid name and an unused email, when no company 7 exists | reply 422 with "The selected company cannot be found - update has failed!" and change nothing | not executed; relies on the framework's default of turning PHP warnings into exceptions | `Controllers.CompanyController.UpdateAsWritten`, `Scenarios.UpdateMissingCompany` | `Controllers.CompanyController.Update` |
| app/Http/Controllers/CompanyController.php:96-111 | The old logo is deleted whenever a new logo was uploaded and a file of the old name exists. When the new file has the same name, because it came in the same second under the same client name, the file just written is deleted. | company 1 with logo `1700000000_acme.png`, updated at time 1700000000 with an upload named `acme.png` | delete only the replaced file, so the row's logo file always exists | not executed | `Controllers.CompanyController.UpdateAsWritten`, `Scenarios.SameSecondReuploadAsWritten` | `Controllers.CompanyController.Update` |

## Left out

- `index` (line 32) is entirely the framework's paginator, which is not part of this model.
- The `auth` middleware and the routes in `routes/web.php` are request plumbing outside the controller's logic.
- The `catch (HttpException)` blocks are not modelled. No storage or database failure is modelled, so nothing in the model throws an `HttpException`.
- The validator's `email` and `url` syntax is not modelled: it is opaque, passed in as predicates. The `image|mimes:png` check is passed in the same way. Its reference definition `ImageMimesPng` reduces content sniffing to "the extension guessed from the content is png" and adds the rejection of PHP-like client extensions (`php`, `php3`…`php8`, `phtml`, `phar`). A `logo` field that is present but not a file is not modelled.
- The `string` rule is not modelled, because request fields are modelled as strings. Non-string JSON values are not modelled.
- Email uniqueness compares strings exactly. The database collation (e.g. case-insensitive) is not modelled.
- Resizing to 100×100 and file contents are left out. A second upload under an existing name shows only as the same name staying in storage.
- Storage paths (`/app/public/`, `/public/`) and timestamps are left out. `time()` is an unbounded natural number, not a 64-bit integer.
- `Controllers.CompanyController.UpdateAsWritten`: with no previous logo, the code asks storage whether `'/public/' . null`, the directory itself, exists and tries to delete it. The model deletes nothing in that case.
- `Controllers.CompanyController.Update`: "every logo is stored" is kept only when no other company shares the old logo name. Sharing arises when two companies are stored in the same second under the same original file name; the code does not prevent it.
- Concurrent requests are not modelled. Email uniqueness under concurrent writes is the database's job.
- `EmployeeController` is not part of this model: every action in it is an empty stub. Employees appear only as the target of the cascade.
- The seeder is random factory data. The migration is used only as the invariants it declares.
