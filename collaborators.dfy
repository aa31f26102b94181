/**
 * What the parser takes from code outside this model.  Each collaborator is a
 * field of `Env`, so every result below holds for any behaviour of them.
 */
module Collaborators {
  import opened Wrappers

  /** A regular-expression capture of the shape `(.+)`: never empty. */
  type Capture = s: string | |s| > 0 witness "x"

  /**
   * A capture of the shape `([^ ]+[@][^ ]+)`: at least three characters, one
   * of them an `@` (the pattern also puts a character on each side of it).
   */
  type Address = s: string | 3 <= |s| && '@' in s witness "a@b"

  datatype Env = Env(
    /** `Sisimai::RFC5322.HEADERFIELDS`: lower-cased names of the original headers kept. */
    headerFields: set<string>,
    /** `Sisimai::RFC5322.LONGFIELDS`: lower-cased names of the kept headers that may fold. */
    longFields: set<string>,
    /** `Sisimai::RFC5322.received`: the host names found in one Received header. */
    receivedHosts: string -> seq<string>,
    /** `Sisimai::String.sweep`: whitespace clean-up of a text. */
    sweep: string -> string,
    /** `Sisimai::SMTP::Status.code`: the pseudo status of a reason ("" when it has none). */
    statusCode: string -> string,
    /**
     * The two recipient-line patterns of the delivery-status part,
     * `\A\s*([^ ]+[@][^ ]+) on\s*.*\z` and then
     * `\A\s*.+(?:SMTP|smtp)=([^ ]+[@][^ ]+) on\s*.*\z`: the address captured
     * by the first that matches, or None.
     */
    recipientAddress: string -> Option<Address>,
    /**
     * The two `Sent:` patterns, `\A\s+Sent:\s+([A-Z][a-z]{2},.+[-+]\d{4})\z`
     * and then `\A\s+Sent:\s+(\d+[/]\d+[/]\d+\s+\d+:\d+:\d+\s.+)`: the date
     * captured by the first that matches, or None.
     */
    sentDate: string -> Option<Capture>
  )
}
