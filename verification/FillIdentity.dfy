/** unique_fill_identity: one action per complete field identity. */
module FillIdentity {
  datatype Identity = Identity(selector: string, fieldId: string)

  /** True of the strings that strip to nothing. */
  predicate Blank(s: string) {
    forall c | c in s :: c == ' ' || c == '\t' || c == '\n' || c == '\r'
  }

  predicate UniqueFillIdentity(items: seq<Identity>) {
    && (forall i | 0 <= i < |items| :: !Blank(items[i].selector) && !Blank(items[i].fieldId))
    && (forall i, j | 0 <= i < j < |items| ::
          items[i].selector != items[j].selector && items[i].fieldId != items[j].fieldId)
  }
}
