/** The fake paginated remote API: a deterministic function of the page
    number and the page size. Its simulated latency and its console output
    are effects with no bearing on the result and are not modelled. */
module NoteApi {
  import opened Entities

  /** The fake remote holds exactly this many pages of notes. */
  const LastPage: int := 5

  /** The digit character for `0 <= d < 10`. */
  function DigitChar(d: int): (c: char)
    requires 0 <= d < 10
    ensures '0' <= c <= '9' && (c as int) - ('0' as int) == d
  {
    "0123456789"[d]
  }

  /** The value of a decimal digit character (0 for any other character). */
  function DigitValue(c: char): nat
  {
    if '0' <= c <= '9' then (c as int) - ('0' as int) else 0
  }

  /** The decimal digits of `n`, most significant first, without leading zeros. */
  function NatToDecimal(n: nat): (s: string)
    ensures |s| > 0
    ensures forall i :: 0 <= i < |s| ==> '0' <= s[i] <= '9'
    ensures n == 0 ==> s == "0"
    ensures n >= 1 ==> s[0] != '0'
    decreases n
  {
    if n < 10 then [DigitChar(n)] else NatToDecimal(n / 10) + [DigitChar(n % 10)]
  }

  /** Reads a string of decimal digits back as a number. */
  function DecimalToNat(s: string): nat
    decreases |s|
  {
    if s == [] then 0 else DecimalToNat(s[..|s| - 1]) * 10 + DigitValue(s[|s| - 1])
  }

  lemma {:induction false} DecimalRoundTrip(n: nat)
    ensures DecimalToNat(NatToDecimal(n)) == n
    decreases n
  {
    var s := NatToDecimal(n);
    if n >= 10 {
      DecimalRoundTrip(n / 10);
      assert s[..|s| - 1] == NatToDecimal(n / 10);
    }
  }

  /** Kotlin's rendering of a `Long` in a string template. */
  function LongToString(n: int): string
  {
    if n < 0 then "-" + NatToDecimal(-n) else NatToDecimal(n)
  }

  /** The inverse of `LongToString`. */
  function ParseLong(s: string): int
  {
    if |s| > 0 && s[0] == '-' then 0 - DecimalToNat(s[1..]) else DecimalToNat(s)
  }

  /** The rendering loses nothing: the number can be read back. */
  lemma LongToStringRoundTrip(n: int)
    ensures ParseLong(LongToString(n)) == n
  {
    if n < 0 {
      DecimalRoundTrip(-n);
      assert LongToString(n)[1..] == NatToDecimal(-n);
    } else {
      DecimalRoundTrip(n);
    }
  }

  /** The title the fake remote gives note `id`. */
  function Title(id: int): string
  {
    "Note #" + LongToString(id)
  }

  /** The content the fake remote gives note `id`. */
  function Content(id: int): string
  {
    "This is the content for note " + LongToString(id) + " fetched from the remote API."
  }

  /** The note the fake remote serves under `id`. */
  function FakeNote(id: int): NoteDto
  {
    NoteDto(id, Title(id), Content(id))
  }

  /** The number of items in a page: Kotlin's range `1..pageSize` is empty
      when `pageSize < 1`. */
  function PageLength(pageSize: int): nat
  {
    if pageSize > 0 then pageSize else 0
  }

  /** `NoteApiService.getNotes(page, pageSize)`: pages after `LastPage` are
      empty; otherwise the `i`-th item (1-based) has id
      `(page - 1) * pageSize + i`. */
  function GetNotes(page: int, pageSize: int): seq<NoteDto>
  {
    if page > LastPage then []
    else seq(PageLength(pageSize), i requires 0 <= i < PageLength(pageSize) =>
               FakeNote((page - 1) * pageSize + i + 1))
  }

  /** The ids a response carries. */
  function IdsOf(response: seq<NoteDto>): set<int>
  {
    set i | 0 <= i < |response| :: response[i].id
  }

  lemma GetNotesPastLastPage(page: int, pageSize: int)
    requires page > LastPage
    ensures GetNotes(page, pageSize) == []
  {
  }

  lemma GetNotesLength(page: int, pageSize: int)
    requires page <= LastPage
    ensures |GetNotes(page, pageSize)| == PageLength(pageSize)
    ensures GetNotes(page, pageSize) == [] <==> pageSize <= 0
  {
  }

  /** Every item is the fake note for its position: id, title and content
      depend on `(page, pageSize)` and the position only. */
  lemma GetNotesItem(page: int, pageSize: int, i: int)
    requires 1 <= i <= |GetNotes(page, pageSize)|
    ensures page <= LastPage && i <= pageSize
    ensures GetNotes(page, pageSize)[i - 1].id == (page - 1) * pageSize + i
    ensures GetNotes(page, pageSize)[i - 1].title == "Note #" + LongToString((page - 1) * pageSize + i)
    ensures GetNotes(page, pageSize)[i - 1] == FakeNote((page - 1) * pageSize + i)
  {
    IdAt(page, pageSize, i - 1);
  }

  /** The 0-based form of the id formula, as one step. */
  lemma IdAt(page: int, pageSize: int, k: int)
    requires 0 <= k < |GetNotes(page, pageSize)|
    ensures page <= LastPage && k < pageSize
    ensures GetNotes(page, pageSize)[k] == FakeNote((page - 1) * pageSize + k + 1)
    ensures GetNotes(page, pageSize)[k].id == (page - 1) * pageSize + k + 1
  {
  }

  /** Ids within one page are strictly ascending. */
  lemma GetNotesAscending(page: int, pageSize: int)
    ensures forall i, j :: 0 <= i < j < |GetNotes(page, pageSize)| ==>
              GetNotes(page, pageSize)[i].id < GetNotes(page, pageSize)[j].id
  {
    forall i, j | 0 <= i < j < |GetNotes(page, pageSize)|
      ensures GetNotes(page, pageSize)[i].id < GetNotes(page, pageSize)[j].id
    {
      IdAt(page, pageSize, i);
      IdAt(page, pageSize, j);
    }
  }

  /** A page of the first `LastPage` holds exactly the ids
      `(page - 1) * pageSize + 1 .. page * pageSize`. */
  lemma {:induction false} PageIds(page: int, pageSize: int)
    requires page <= LastPage && pageSize > 0
    ensures forall x :: x in IdsOf(GetNotes(page, pageSize)) <==>
              (page - 1) * pageSize < x <= page * pageSize
  {
    var r := GetNotes(page, pageSize);
    forall x
      ensures x in IdsOf(r) <==> (page - 1) * pageSize < x <= page * pageSize
    {
      var base := (page - 1) * pageSize;
      assert page * pageSize == base + pageSize;
      if x in IdsOf(r) {
        var k :| 0 <= k < |r| && r[k].id == x;
        IdAt(page, pageSize, k);
      }
      if base < x <= page * pageSize {
        var i := x - base - 1;
        IdAt(page, pageSize, i);
      }
    }
  }

  /** Consecutive pages meet with no gap: the first id of page `page + 1`
      follows the last id of page `page`. */
  lemma PagesAdjacent(page: int, pageSize: int)
    requires 1 <= page < LastPage && pageSize > 0
    ensures GetNotes(page + 1, pageSize)[0].id == GetNotes(page, pageSize)[pageSize - 1].id + 1
  {
    LastIdOfPage(page, pageSize);
    FirstIdOfPage(page + 1, pageSize);
  }

  /** The last id of a non-empty page is `page * pageSize`. */
  lemma LastIdOfPage(page: int, pageSize: int)
    requires page <= LastPage && pageSize > 0
    ensures GetNotes(page, pageSize)[pageSize - 1].id == page * pageSize
  {
    assert page * pageSize == (page - 1) * pageSize + pageSize;
    IdAt(page, pageSize, pageSize - 1);
  }

  /** The first id of a non-empty page is `(page - 1) * pageSize + 1`. */
  lemma FirstIdOfPage(page: int, pageSize: int)
    requires page <= LastPage && pageSize > 0
    ensures GetNotes(page, pageSize)[0].id == (page - 1) * pageSize + 1
  {
    IdAt(page, pageSize, 0);
  }

  /** Distinct pages share no id. */
  lemma {:induction false} PagesDisjoint(p: int, q: int, pageSize: int)
    requires p < q <= LastPage && pageSize > 0
    ensures IdsOf(GetNotes(p, pageSize)) !! IdsOf(GetNotes(q, pageSize))
  {
    PageIds(p, pageSize);
    PageIds(q, pageSize);
    assert p * pageSize <= (q - 1) * pageSize;
  }

  /** Pages `1 .. LastPage` tile the ids `1 .. LastPage * pageSize`: some
      page serves every id in that range, and no page serves an id outside
      it. With `PagesDisjoint`, no id is served twice. */
  lemma PagesTile(pageSize: int, x: int)
    requires pageSize > 0
    ensures 1 <= x <= LastPage * pageSize ==>
              exists p :: 1 <= p <= LastPage && x in IdsOf(GetNotes(p, pageSize))
    ensures forall p :: 1 <= p <= LastPage && x in IdsOf(GetNotes(p, pageSize)) ==>
              1 <= x <= LastPage * pageSize
  {
    if 1 <= x <= LastPage * pageSize {
      var p := if x <= pageSize then 1
               else if x <= 2 * pageSize then 2
               else if x <= 3 * pageSize then 3
               else if x <= 4 * pageSize then 4
               else 5;
      PageIds(p, pageSize);
      assert x in IdsOf(GetNotes(p, pageSize));
    }
    forall p | 1 <= p <= LastPage && x in IdsOf(GetNotes(p, pageSize))
      ensures 1 <= x <= LastPage * pageSize
    {
      PageIds(p, pageSize);
      assert p * pageSize <= LastPage * pageSize;
    }
  }

  /** A title names its note: the id can be read back from it, so distinct
      ids never share a title. */
  lemma TitleNamesId(id: int)
    ensures |Title(id)| > 6 && Title(id)[..6] == "Note #"
    ensures ParseLong(Title(id)[6..]) == id
  {
    assert Title(id)[6..] == LongToString(id);
    LongToStringRoundTrip(id);
  }
}
