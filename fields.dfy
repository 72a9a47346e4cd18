/** The `{ name, email, message }` record that both contact forms keep, and
    the field update `{ ...record, [field]: value }` that their change
    handlers perform. */
module Fields {

  /** The three inputs of a contact form, in the order the form renders them. */
  datatype Field = Name | Email | Message

  /** A record of one string per field. */
  datatype FormFields = FormFields(name: string, email: string, message: string) {

    /** `record[field]`. */
    function Get(f: Field): string {
      match f
      case Name => name
      case Email => email
      case Message => message
    }

    /** `{ ...record, [field]: value }`: the named field takes the new value
        and the other two keep theirs. */
    function Set(f: Field, v: string): (r: FormFields)
      ensures r.Get(f) == v
      ensures forall g :: g != f ==> r.Get(g) == Get(g)
    {
      match f
      case Name => this.(name := v)
      case Email => this.(email := v)
      case Message => this.(message := v)
    }
  }

  /** `{ name: '', email: '', message: '' }`. */
  const Empty := FormFields("", "", "")
}
