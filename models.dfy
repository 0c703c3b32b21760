/** The persisted dog record. The data annotations on the original class
    (string lengths, ranges) are enforced by the framework, not by the service,
    so the record here carries no invariant. */
module Models {

  datatype Dog = Dog(id: int, name: string, color: string, tailLength: int, weight: int)

  /** The record's type name, as reflection reports it in error messages. */
  const TypeName: string := "Dog"
}
