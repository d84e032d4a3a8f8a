/** What several modules share. */
module Basics {

  datatype Option<T> = None | Some(value: T)

  /** The result of a translation that may refuse its input. */
  datatype Result<T> = Ok(value: T) | Unsupported

  datatype Comparison = Gt | Ge | Lt | Le

  predicate IsDigit(c: char) { '0' <= c <= '9' }

  /** The characters `\s` matches. */
  predicate IsSpace(c: char) {
    || '\t' <= c <= '\r' || '\U{1C}' <= c <= ' ' || c == '\U{85}' || c == '\U{A0}' || c == '\U{1680}'
    || '\U{2000}' <= c <= '\U{200A}' || c in {'\U{2028}', '\U{2029}', '\U{202F}', '\U{205F}', '\U{3000}'}
  }

  /** The order of texts, character by character from position `k`. */
  predicate LessFrom(a: string, b: string, k: nat)
    decreases |b| - k
  {
    k < |b| && (k >= |a| || a[k] < b[k] || (a[k] == b[k] && LessFrom(a, b, k + 1)))
  }

  predicate TextsCompare(cmp: Comparison, a: string, b: string) {
    match cmp
    case Gt => LessFrom(b, a, 0)
    case Ge => !LessFrom(a, b, 0)
    case Lt => LessFrom(a, b, 0)
    case Le => !LessFrom(b, a, 0)
  }
}
