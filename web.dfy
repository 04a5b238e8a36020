/** What a Spring MVC handler answers, and the owner check the controllers
    share. */
module Web {
  import opened Wrappers

  /** A flash attribute carried across a redirect. */
  datatype Flash = Flash(key: string, message: string)

  /** The view name a handler returns: a template to render, or
      `"redirect:" + target` with at most one flash attribute; `Failed` is
      an exception that escapes the handler. */
  datatype Outcome = Render(template: string) | Redirect(target: string, flash: Option<Flash>) | Failed(error: string)

  /** The exception of a call on `null`. */
  const NullDereference := "NullPointerException"

  /** `owner.getUsername().equals(authentication.getName())`, where `author`
      is the owner's username and `principal` the signed-in user's name:
      None when the owner or the authentication is null and the call
      throws. */
  function IsOwner(author: Option<string>, principal: Option<string>): (r: Option<bool>)
    ensures r.None? <==> author.None? || principal.None?
    ensures r == Some(true) <==> author.Some? && principal.Some? && author.value == principal.value
  {
    if author.None? || principal.None? then None else Some(author.value == principal.value)
  }
}
