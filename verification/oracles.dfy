/** The external calls the model leaves uninterpreted. */
module Oracles {
  /** `re.search(pattern, text, re.IGNORECASE)` succeeds. */
  type Matcher = (string, string) -> bool

  /** The test "`pattern` matches `text`", as a value. */
  function MatchesIn(m: Matcher, text: string): string -> bool {
    p => m(p, text)
  }

  /** The text a language model returns for a prompt. */
  type Llm = string -> string
}
