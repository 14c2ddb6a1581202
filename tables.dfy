/**
 * The relational state the controller works on: the `company` table keyed by
 * id, and the `employee` table reduced to what the controller touches, each
 * employee's company_id. The invariants are the foreign key
 * employee.company_id -> company.id declared by the employee migration, and
 * unique company emails, which the `unique:company,email` validation rules of
 * `store` and `update` maintain.
 */
module Tables {
  import opened Wrappers

  /** A row of the company table; timestamps are not modelled. */
  datatype Company = Company(name: string, email: string, website: Option<string>, logo: Option<string>)

  type CompanyTable = map<int, Company>

  /** employee id -> company_id */
  type EmployeeTable = map<int, int>

  /** The foreign key of the employee table: every company_id names a company. */
  ghost predicate ForeignKeysHold(companies: CompanyTable, employees: EmployeeTable) {
    forall e :: e in employees ==> employees[e] in companies
  }

  /** No two companies share an email. */
  ghost predicate EmailsUnique(companies: CompanyTable) {
    forall a, b :: a in companies && b in companies && a != b ==> companies[a].email != companies[b].email
  }

  /** Every id handed out so far is below the auto-increment counter. */
  ghost predicate IdsBelow(companies: CompanyTable, nextId: int) {
    forall id :: id in companies ==> id < nextId
  }

  ghost predicate Consistent(companies: CompanyTable, employees: EmployeeTable, nextId: int) {
    ForeignKeysHold(companies, employees) && EmailsUnique(companies) && IdsBelow(companies, nextId)
  }

  /** Every logo a company names is a stored file. */
  ghost predicate LogosStored(companies: CompanyTable, blobs: set<string>) {
    forall id :: id in companies && companies[id].logo.Some? ==> companies[id].logo.value in blobs
  }

  /** No other company names the same logo file as company `id`. */
  ghost predicate LogoNotShared(companies: CompanyTable, id: int)
    requires id in companies
  {
    forall other :: other in companies && other != id ==> companies[other].logo != companies[id].logo
  }

  /** `Employee::where('company_id', '=', companyId)->delete()` */
  function EmployeesWithout(employees: EmployeeTable, companyId: int): (r: EmployeeTable)
    ensures forall e :: e in r <==> e in employees && employees[e] != companyId
    ensures forall e :: e in r ==> r[e] == employees[e]
  {
    map e | e in employees && employees[e] != companyId :: employees[e]
  }

  /** Removing a company's employees and then the company keeps the foreign key. */
  lemma CascadeKeepsForeignKeys(companies: CompanyTable, employees: EmployeeTable, id: int)
    requires ForeignKeysHold(companies, employees)
    ensures ForeignKeysHold(companies, EmployeesWithout(employees, id))
    ensures ForeignKeysHold(companies - {id}, EmployeesWithout(employees, id))
    ensures id !in companies ==> EmployeesWithout(employees, id) == employees
  {
    if id !in companies {
      var r := EmployeesWithout(employees, id);
      forall e | e in employees
        ensures e in r
      {
        assert employees[e] in companies;
      }
      assert r.Keys == employees.Keys;
    }
  }

  /** Removing the company while an employee still references it would break the foreign key. */
  lemma CompanyFirstBreaksForeignKey(companies: CompanyTable, employees: EmployeeTable, id: int, e: int)
    requires e in employees && employees[e] == id
    ensures !ForeignKeysHold(companies - {id}, employees)
  {
  }
}
