/**
 * What the scripted browser hands back. The browser itself is not modelled:
 * each page visit either yields the record `getDataFromGiveaway` builds in
 * the page, or rejects with some value.
 */
module Browser {

  /**
   * A rejection value: either a bare string (the browser driver rejects with
   * one when a selector is missing) or an Error object with its message.
   */
  datatype Failure = Plain(text: string) | ErrorObject(message: string)

  /** The record `getDataFromGiveaway` returns after the entry button was clicked. */
  datatype PageData = PageData(
    /** no `.giv-coupon` button is left on the page */
    entered: bool,
    /** `document.title` */
    title: string,
    /** the title of the `.coins-amount` element */
    coins: string,
    /** the text of the visible warning, empty when there is none */
    error: string)

  /** The result of one visit of a giveaway page. */
  datatype Outcome = Data(page: PageData) | Thrown(failure: Failure)

  /** JavaScript's `'' + err`: a string as it is, an Error as `Error: message` (just `Error` when the message is empty). */
  function FailureText(f: Failure): (s: string)
    ensures f.Plain? ==> s == f.text
    ensures f.ErrorObject? && f.message != "" ==> s == "Error: " + f.message
    ensures f.ErrorObject? && f.message == "" ==> s == "Error"
  {
    match f
    case Plain(text) => text
    case ErrorObject(message) => if message == "" then "Error" else "Error: " + message
  }

  /** JavaScript's `'' + err.message`: a string has no `message` property, which prints as `undefined`. */
  function FailureMessage(f: Failure): (s: string)
    ensures f.ErrorObject? ==> s == f.message
    ensures f.Plain? ==> s == "undefined"
  {
    match f
    case Plain(_) => "undefined"
    case ErrorObject(message) => message
  }
}
