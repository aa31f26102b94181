/** `ErrorCodeTable`: reason categories and the Exchange codes that signal them. */
module ErrorCodes {
  import opened Wrappers
  import opened Text

  datatype Category = Category(reason: string, codes: seq<string>)

  /** The table, in the insertion order that `each_key` walks. */
  const ErrorCodeTable: seq<Category> := [
    Category("onhold", ["000B099C", "000B09AA", "000B09B6"]),
    Category("userunknown", ["000C05A6"]),
    Category("systemerror", ["00010256", "000D06B5"]),
    Category("networkerror", ["00120270"]),
    Category("contenterr", ["00050311", "000502CC"]),
    Category("securityerr", ["000B0981"]),
    Category("filtered", ["000C0595"])
  ]

  /** The first category, from index `i` on, whose list holds `code`. */
  function FindCategory(code: string, i: nat): (r: Option<string>)
    requires i <= |ErrorCodeTable|
    ensures r.None? <==> forall j | i <= j < |ErrorCodeTable| :: code !in ErrorCodeTable[j].codes
    ensures r.Some? ==> exists j | i <= j < |ErrorCodeTable| ::
                          ErrorCodeTable[j].reason == r.value && code in ErrorCodeTable[j].codes
    decreases |ErrorCodeTable| - i
  {
    if i == |ErrorCodeTable| then None
    else if code in ErrorCodeTable[i].codes then Some(ErrorCodeTable[i].reason)
    else FindCategory(code, i + 1)
  }

  /** The category the lookup loop settles on, or None when no list holds the code. */
  function CategoryOf(code: string): (r: Option<string>)
    ensures r.None? <==> forall j | 0 <= j < |ErrorCodeTable| :: code !in ErrorCodeTable[j].codes
  {
    FindCategory(code, 0)
  }

  /** Every code in the table is eight upper-case hexadecimal digits. */
  lemma CodesAreHex()
    ensures forall j, k | 0 <= j < |ErrorCodeTable| && 0 <= k < |ErrorCodeTable[j].codes| ::
              IsHexCode(ErrorCodeTable[j].codes[k])
  {
  }

  /** No code is listed under two categories, and no category appears twice. */
  lemma CodesDistinct()
    ensures forall i, j | 0 <= i < j < |ErrorCodeTable| ::
              ErrorCodeTable[i].reason != ErrorCodeTable[j].reason
    ensures forall i, j, c | 0 <= i < j < |ErrorCodeTable| ::
              !(c in ErrorCodeTable[i].codes && c in ErrorCodeTable[j].codes)
  {
  }

  /**
   * Lookup order does not matter: a code listed under a category leads to
   * exactly that category.
   */
  lemma CategoryUnique(code: string, j: nat)
    requires j < |ErrorCodeTable| && code in ErrorCodeTable[j].codes
    ensures CategoryOf(code) == Some(ErrorCodeTable[j].reason)
  {
    CodesDistinct();
    var r := CategoryOf(code);
    var i :| 0 <= i < |ErrorCodeTable| && ErrorCodeTable[i].reason == r.value
             && code in ErrorCodeTable[i].codes;
    assert i == j;
  }

  /** No category of the table is `mailererror`. */
  lemma NoMailerError(code: string)
    ensures CategoryOf(code) != Some("mailererror")
  {
    var r := CategoryOf(code);
    if r.Some? {
      var i :| 0 <= i < |ErrorCodeTable| && ErrorCodeTable[i].reason == r.value
               && code in ErrorCodeTable[i].codes;
    }
  }

  /** `000C05A6` (Unknown Recipient) is a `userunknown` code. */
  lemma UnknownRecipientCode()
    ensures CategoryOf("000C05A6") == Some("userunknown")
  {
    CategoryUnique("000C05A6", 1);
  }
}
