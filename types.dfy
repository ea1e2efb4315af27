/** The records the dashboard shows: an employee and the status filter of the list view. */
module Types {

  /** A value that may be absent, as `undefined` is for query data not yet loaded. */
  datatype Option<T> = None | Some(value: T)

  /** `'active' | 'inactive'` */
  datatype EmployeeStatus = Active | Inactive

  /** `EmployeeStatus | 'all-status'`: either no restriction or one status. */
  datatype EmployeeStatusFilter = AllStatus | Only(status: EmployeeStatus)

  /** An employee as the backend returns it; `organization` is a free string. */
  datatype Employee = Employee(
    id: string,
    name: string,
    title: string,
    organization: string,
    status: EmployeeStatus)
}
