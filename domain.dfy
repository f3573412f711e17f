/** The shapes shared by the client and the server of the contact
    directory: the closed set of method types, a method as it travels on
    the wire, and a contact candidate as the client sends it. */
module Domain {

  datatype Option<+T> = None | Some(value: T)

  /** The method `type` discriminator, closed to the four kinds the
      spreadsheet columns know about. */
  datatype MethodType = Phone | Email | Social | Address

  /** A method as it travels on the wire: `{type, value, label}` with a
      label that may be null. The label is the field `note` here, because
      `label` is a Dafny keyword. */
  datatype MethodInput = MethodInput(kind: MethodType, value: string, note: Option<string>)

  /** One contact to create: what the spreadsheet import builds and what
      the bulk endpoint receives. */
  datatype Candidate = Candidate(name: string, isBookmarked: bool, methods: seq<MethodInput>)

  /** The message both the dialog and the create endpoint give for a blank
      name. */
  const NameRequiredMessage := "Name is required."

  /** A contact as the list shows it: what the export and the editor read. */
  datatype Contact = Contact(id: nat, name: string, isBookmarked: bool, methods: seq<MethodInput>)
}
