/** The exceptions the record builder can raise, one constructor per distinct cause. */
module Errors {

  datatype Error =
    | AlreadyExists    // ValueError '... already exists' (a deck or model key that is taken)
    | NotFound         // ValueError '... does not exists.' / '... not in models'
    | NoCollection     // TypeError: the `col` row is absent, so `fetchone()` gave None
    | BadFormat        // str.format rejected a shorthand template (stray brace, bad index)
    | NoAnswerMarker   // the shorthand has no `<hr id=answer>`: `re.fullmatch` gave None
    | MissingArgument  // IndexError: no field values, or `decks` shorter than the templates
    | DuplicateId      // sqlite3.IntegrityError: a row with that primary key is already stored
}
