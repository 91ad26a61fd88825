/** Vocabulary shared by every module: optional values, payload fields, handler
    outcomes, row identifiers, and the small text helpers the handlers need
    (decimal rendering of ids, ASCII case folding, prefixes, splitting). */
module Common {

  /** Conventional optional value; `None` plays Python's `None`. */
  datatype Option<T> = None | Some(value: T) {
    function GetOr(default: T): T {
      if Some? then value else default
    }
  }

  /** One field of a partial-update payload read with `exclude_unset=True`:
      either the client left it out, or it was given (possibly as null). */
  datatype Field<T> = Unset | Set(value: T) {
    function Or(current: T): T {
      if Set? then value else current
    }
  }

  /** How a handler fails: an HTTP error response (raised `HttpError`,
      `get_object_or_404`, or an error tuple the handler returns), or an
      exception that escapes to the framework. */
  datatype Failure =
    | HttpError(status: int, detail: string)
    | HttpErrorWith(status: int, body: ErrorMessage)
    | Exception(kind: string, message: string)

  /** A message an `HttpError` is raised with that is not text: an
      `ErrorSchema(detail=...)` instance or a `{"detail": ...}` dict. How the
      framework's error handler renders such a message is not part of the
      model; the failure records what the handler raises. */
  datatype ErrorMessage = SchemaMessage(detail: string) | DictMessage(detail: string)

  datatype Result<T> = Ok(value: T) | Err(failure: Failure)

  /** Primary keys. Django's auto-increment keys start at 1. */
  type Id = nat
  type UserId = Id
  type ExamId = Id
  type QuestionId = Id
  type ChoiceId = Id
  type ParticipationId = Id
  type AnswerId = Id
  type RankingId = Id

  /** Timestamps are opaque: only stored, compared for presence, and copied. */
  type Time = int

  /** Detail of the `Http404` raised by `get_object_or_404`. */
  const NOT_FOUND: string := "Not Found"

  function Min(a: int, b: int): int { if a <= b then a else b }
  function Max(a: int, b: int): int { if a <= b then b else a }

  // ---------------------------------------------------------------------------
  // Decimal rendering of ids (Python's str() of a non-negative int)

  predicate IsDigit(c: char) { '0' <= c <= '9' }

  predicate AllDigits(s: string) { forall i :: 0 <= i < |s| ==> IsDigit(s[i]) }

  function DigitChar(d: nat): (c: char)
    requires d < 10
    ensures IsDigit(c) && (c as int) - ('0' as int) == d
  {
    (('0' as int) + d) as char
  }

  /** Decimal digits of `n`, most significant first, without leading zeros. */
  function NatToString(n: nat): (s: string)
    ensures |s| >= 1 && AllDigits(s)
    ensures s[0] == '0' ==> n == 0
  {
    if n < 10 then [DigitChar(n)] else NatToString(n / 10) + [DigitChar(n % 10)]
  }

  /** The number a string of decimal digits denotes. */
  function DigitsValue(s: string): nat
    requires AllDigits(s)
  {
    if s == [] then 0
    else DigitsValue(s[..|s| - 1]) * 10 + ((s[|s| - 1] as int) - ('0' as int))
  }

  /** Reading back the rendered digits yields the number itself. */
  lemma {:induction false} NatToStringValue(n: nat)
    ensures DigitsValue(NatToString(n)) == n
  {
    if n >= 10 {
      NatToStringValue(n / 10);
      var s := NatToString(n);
      assert s[..|s| - 1] == NatToString(n / 10);
    }
  }

  /** Distinct ids render as distinct strings, so a message naming an id
      identifies it. */
  lemma NatToStringInjective(a: nat, b: nat)
    ensures NatToString(a) == NatToString(b) ==> a == b
  {
    NatToStringValue(a);
    NatToStringValue(b);
  }

  /** Python's repr of a list of ints: `[1, 22, 3]`. */
  function IdListRepr(ids: seq<nat>): string {
    "[" + JoinIds(ids) + "]"
  }

  function JoinIds(ids: seq<nat>): string {
    if ids == [] then ""
    else if |ids| == 1 then NatToString(ids[0])
    else NatToString(ids[0]) + ", " + JoinIds(ids[1..])
  }

  /** A subset has the same size as its superset only when they are equal. */
  lemma SubsetSize<T>(a: set<T>, b: set<T>)
    requires a <= b
    ensures |a| <= |b|
    ensures |a| == |b| <==> a == b
  {
    assert b == a + (b - a);
    if a != b {
      var x :| x in b - a;
      assert |b - a| >= 1;
    }
  }

  /** `l` names every member of `s`, each once. */
  ghost predicate IsListing(l: seq<nat>, s: set<nat>) {
    |l| == |s| && forall x :: x in l <==> x in s
  }

  /** `list(s)` of a set of ints. CPython lists the members in the order of
      the set's hash table, which depends on the values, on the table's size
      and on the order of insertion; that order is a parameter of the model. */
  type Listing = set<nat> -> seq<nat>

  /** A listing order that names every member of every set once. */
  ghost predicate ListsEachOnce(listing: Listing) {
    forall s :: IsListing(listing(s), s)
  }

  // ---------------------------------------------------------------------------
  // Text predicates

  predicate StartsWith(s: string, prefix: string) {
    |prefix| <= |s| && s[..|prefix|] == prefix
  }

  /** ASCII case folding, as SQLite's LIKE (behind `icontains`) does it. */
  function Lower(c: char): char {
    if 'A' <= c <= 'Z' then ((c as int) - ('A' as int) + ('a' as int)) as char else c
  }

  function LowerString(s: string): (r: string)
    ensures |r| == |s| && forall i :: 0 <= i < |s| ==> r[i] == Lower(s[i])
  {
    seq(|s|, i requires 0 <= i < |s| => Lower(s[i]))
  }

  /** `needle` occurs in `hay` ignoring ASCII case (Django's `icontains`). */
  predicate ContainsIgnoreCase(hay: string, needle: string) {
    exists i :: 0 <= i <= |hay| - |needle| && OccursAt(LowerString(hay), LowerString(needle), i)
  }

  predicate OccursAt(hay: string, needle: string, i: int) {
    0 <= i <= |hay| - |needle| && hay[i..i + |needle|] == needle
  }

  /** Python's `s.split(sep)` with an explicit one-character separator:
      every occurrence separates two fields, so empty fields are kept. */
  function Split(s: string, sep: char): (r: seq<string>)
    ensures |r| >= 1
    ensures forall k :: 0 <= k < |r| ==> sep !in r[k]
    decreases |s|
  {
    if s == [] then [""]
    else if s[0] == sep then [""] + Split(s[1..], sep)
    else
      var rest := Split(s[1..], sep);
      [[s[0]] + rest[0]] + rest[1..]
  }

  /** Fields glued back with the separator, the inverse of `Split`. */
  function Join(fields: seq<string>, sep: char): string
    requires |fields| >= 1
  {
    if |fields| == 1 then fields[0] else fields[0] + [sep] + Join(fields[1..], sep)
  }

  lemma {:induction false} SplitJoin(s: string, sep: char)
    ensures Join(Split(s, sep), sep) == s
    decreases |s|
  {
    if s == [] {
    } else if s[0] == sep {
      SplitJoin(s[1..], sep);
      assert Split(s, sep)[1..] == Split(s[1..], sep);
    } else {
      SplitJoin(s[1..], sep);
      var rest := Split(s[1..], sep);
      var r := Split(s, sep);
      assert r[0] == [s[0]] + rest[0];
      if |rest| == 1 {
        assert |r| == 1;
      } else {
        assert r[1..] == rest[1..];
        assert Join(rest, sep) == rest[0] + [sep] + Join(rest[1..], sep);
      }
    }
  }

  /** The first field is the longest separator-free prefix: it is a prefix of
      `s`, and it is either all of `s` or followed by the separator. */
  lemma {:induction false} SplitFirstField(s: string, sep: char)
    ensures var f := Split(s, sep)[0];
      |f| <= |s| && s[..|f|] == f && (|f| == |s| || s[|f|] == sep)
    decreases |s|
  {
    if s != [] && s[0] != sep {
      SplitFirstField(s[1..], sep);
    }
  }

  /** Splitting `p + [sep] + rest` where `p` holds no separator yields the
      field `p` followed by the fields of `rest`. */
  lemma {:induction false} SplitAfterPrefix(p: string, rest: string, sep: char)
    requires sep !in p
    ensures Split(p + [sep] + rest, sep) == [p] + Split(rest, sep)
    decreases |p|
  {
    if p == [] {
      assert p + [sep] + rest == [sep] + rest;
      assert ([sep] + rest)[1..] == rest;
    } else {
      SplitAfterPrefix(p[1..], rest, sep);
      assert (p + [sep] + rest)[1..] == p[1..] + [sep] + rest;
      assert [p[0]] + p[1..] == p;
    }
  }
}
