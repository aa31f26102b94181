/** The constant accessors of the parser (lines 60-63 of lib/sisimai/mta/exchange.rb). */
module Accessors {
  import opened Patterns

  /** `description`. */
  function Description(): string { "Microsoft Exchange Server" }

  /** `smtpagent`: the agent name every finished record carries. */
  function SmtpAgent(): string { "Exchange" }

  /** `headerlist`: the vendor headers the detector needs beyond the standard ones. */
  function HeaderList(): seq<string> { ["X-MS-Embedded-Report", "X-MimeOLE"] }

  /** `pattern`: the header patterns, keyed by Symbol. */
  function Pattern(): (p: map<HashKey, HeaderPattern>)
    ensures p.Keys == {Symbol("x-mailer"), Symbol("x-mimeole"), Symbol("received")}
    ensures forall k | k in p.Keys :: k.Symbol?
    ensures Str("x-mimeole") !in p
  {
    Re0
  }
}
