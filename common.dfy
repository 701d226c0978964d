/** Values shared by every service: nullable references, thrown exceptions,
    Java's integer division and the two "blank string" tests the services use. */
module Common {

  /** A Java reference that may be null. */
  datatype Option<+T> = None | Some(value: T)

  /** The exceptions the services throw, one constructor per exception class. */
  datatype Error =
    | IllegalArgument(message: string)
    | EventTypeNotFound(message: string)
    | EventTypeNotFoundById(uuid: nat)
    | EntityNotFound
    | DuplicateEvent(eventId: string)
    | DuplicateEventType(typeCode: string)
    | UserNotFound(userId: string)
    | CourseNotFound(courseId: string)
    | GroupNotFound(groupId: string, courseId: string)
    | UserNotEnrolledInCourse(userId: string, courseId: string)
    | DataIntegrityViolation
    | UnexpectedFailure

  /** A value or the exception that was thrown instead. */
  datatype Result<+T> = Success(value: T) | Failure(error: Error)

  /** The result of a void method: it returned, or it threw. */
  datatype Outcome = Pass | Fail(error: Error)

  /** How the database may fail a write; the service code cannot see why. */
  datatype SaveFault = IntegrityViolation | OtherFailure

  /** Java's `/` on int and long: the quotient is truncated toward zero. */
  function JavaDiv(a: int, b: int): (q: int)
    requires b > 0
    ensures a >= 0 ==> 0 <= a - q * b < b
    ensures a < 0 ==> -b < a - q * b <= 0
    ensures (a >= 0) == (q >= 0) || q == 0
  {
    if a >= 0 then a / b else -((-a) / b)
  }

  const TwoTo31: int := 0x8000_0000
  const TwoTo32: int := 0x1_0000_0000

  /** A 32-bit two's-complement int: the value Java keeps after an int overflow. */
  function Wrap32(x: int): (r: int)
    ensures -TwoTo31 <= r < TwoTo31
    ensures (x - r) % TwoTo32 == 0
    ensures -TwoTo31 <= x < TwoTo31 ==> r == x
  {
    (x + TwoTo31) % TwoTo32 - TwoTo31
  }

  /** The characters `String.trim()` removes: every code point up to U+0020. */
  predicate Trimmable(c: char)
  {
    c <= ' '
  }

  /** `String.trim()`: the string without its leading and trailing characters
      up to U+0020. The first loop of `trim` drops the leading ones ... */
  function TrimStart(s: string): (t: string)
    ensures |t| <= |s| && t == s[|s| - |t|..]
    ensures |t| > 0 ==> !Trimmable(t[0])
    ensures forall i | 0 <= i < |s| - |t| :: Trimmable(s[i])
  {
    if |s| > 0 && Trimmable(s[0]) then TrimStart(s[1..]) else s
  }

  /** ... and the second, the trailing ones. */
  function TrimEnd(s: string): (t: string)
    ensures |t| <= |s| && t == s[..|t|]
    ensures |t| > 0 ==> !Trimmable(t[|t| - 1])
    ensures forall i | |t| <= i < |s| :: Trimmable(s[i])
  {
    if |s| > 0 && Trimmable(s[|s| - 1]) then TrimEnd(s[..|s| - 1]) else s
  }

  function Trim(s: string): string
  {
    TrimEnd(TrimStart(s))
  }

  /** The one blank test every service applies to its string arguments,
      `s == null || s.trim().isEmpty()`: null, or only characters `trim()`
      removes, so the empty string is blank. Micrometer's `StringUtils.isBlank`,
      called where the request ids and the admin's user id are checked, is
      taken to be the same test; it is not part of this model. */
  predicate IsBlank(s: Option<string>)
  {
    s.None? || forall i | 0 <= i < |s.value| :: Trimmable(s.value[i])
  }

  /** A string is blank exactly when `trim()` leaves it empty. */
  lemma BlankIsTrimEmpty(s: string)
    ensures IsBlank(Some(s)) <==> Trim(s) == ""
  {
  }

  /** Null, the empty string and runs of spaces, tabs and line breaks are
      blank; a string with one visible character is not. */
  lemma IsBlankExamples()
    ensures IsBlank(None) && IsBlank(Some("")) && IsBlank(Some(" \t\n "))
    ensures !IsBlank(Some(" a "))
  {
    var blank, visible := " \t\n ", " a ";
    assert TrimStart(blank[3..]) == "";
    assert TrimStart(blank[2..]) == "";
    assert TrimStart(blank[1..]) == "";
    assert Trim(blank) == "";
    BlankIsTrimEmpty(blank);
    assert TrimStart(visible) == visible[1..];
    assert Trim(visible) == "a";
    BlankIsTrimEmpty(visible);
  }

  /** A Spring Data `Page`: the content of one page and its metadata. */
  datatype Page<+E> = Page(content: seq<E>, number: int, size: int, totalElements: int, totalPages: int,
                           hasNext: bool, hasPrevious: bool)
}
