/**
 * Python values the core passes between its parts: optional dictionary
 * entries, the outcome of a collaborator call that may raise, and a segment
 * dictionary as a language model emits it.
 */
module Values {

  /** The two language codes the tutor works with. */
  const FR: string := "fr"
  const RU: string := "ru"

  datatype Option<T> = None | Some(value: T) {
    /** `d.get(key, default)` for an entry that may be absent. */
    function GetOr(default: T): T {
      match this
      case Some(v) => v
      case None => default
    }
  }

  /** A call into code outside the model: it returns a value or raises. */
  datatype Call<T> = Returned(value: T) | Raised(message: string)

  /** A segment dictionary `{"lang": ..., "text": ...}`; either key may be missing. */
  datatype RawSegment = RawSegment(lang: Option<string>, text: Option<string>)
}
