/** The JSON reader behind scene files: a recursive-descent parser for RFC 8259
    without \u escapes.  Its behaviour is defined by the functions ValueAt,
    ArrayAt, ElementsAt, ObjectAt, MembersAt, StringAt and NumberEnd, each of
    which reads the text from a position and says where the value ends; the
    class JsonParser walks the same text with a cursor and is proved to agree
    with them. */
module Json {

  datatype Option<T> = None | Some(value: T)

  /** Why a parse fails: one case per exception the parser throws. */
  datatype Error =
    | TrailingCharacters   // "unexpected trailing characters"
    | UnexpectedToken      // "unexpected token": expect() met another character
    | InvalidValue         // "invalid json value"
    | InvalidEscape        // "invalid escape": a backslash ends the input
    | UnsupportedEscape    // "unsupported escape"
    | UnterminatedString   // "unterminated string"
    | InvalidNumber        // "invalid number"
    | InvalidFraction      // "invalid fraction"
    | InvalidExponent      // "invalid exponent"
    | KeyExpected          // "object key expected"
    | OutOfRange           // std::stod throws std::out_of_range

  datatype Result<T> = Ok(value: T) | Err(error: Error) {
    predicate IsFailure() {
      Err?
    }

    function PropagateFailure<U>(): Result<U>
      requires Err?
    {
      Err(error)
    }

    function Extract(): T
      requires Ok?
    {
      value
    }
  }

  /** A parsed JSON value.  Object members keep their source order and
      duplicate keys. */
  datatype JsonValue =
    | Null
    | Number(n: real)
    | Bool(b: bool)
    | String(str: string)
    | Array(items: seq<JsonValue>)
    | Object(members: seq<Member>)

  datatype Member = Member(key: string, value: JsonValue)

  /** A value read from the text together with the position just after it. */
  datatype Parsed<T> = Parsed(value: T, next: nat)

  /** The conversion std::stod applies to a number's text; None when the
      conversion reports the value out of range. */
  type Stod = string -> Option<real>

  // ----- characters -----

  /** std::isspace in the "C" locale. */
  predicate IsSpace(c: char) {
    c == ' ' || c == '\t' || c == '\n' || c == '\U{000B}' || c == '\U{000C}' || c == '\r'
  }

  predicate IsDigit(c: char) {
    '0' <= c <= '9'
  }

  /** peek(): the character at i, or '\0' at or past the end. */
  function CharAt(s: string, i: int): char {
    if 0 <= i < |s| then s[i] else '\0'
  }

  /** Where skip_ws() stops when started at i. */
  function WsEnd(s: string, i: nat): (j: nat)
    requires i <= |s|
    ensures i <= j <= |s|
    decreases |s| - i
  {
    if i < |s| && IsSpace(s[i]) then WsEnd(s, i + 1) else i
  }

  /** The end of the run of decimal digits starting at i. */
  function DigitsEnd(s: string, i: nat): (j: nat)
    requires i <= |s|
    ensures i <= j <= |s|
    decreases |s| - i
  {
    if i < |s| && IsDigit(s[i]) then DigitsEnd(s, i + 1) else i
  }

  // ----- numbers -----

  /** The integer part at a: a lone 0, or a non-zero digit and the digits
      after it. */
  function IntegerEnd(s: string, a: nat): (r: Result<nat>)
    requires a <= |s|
    ensures r.Ok? ==> a < r.value <= |s|
  {
    if CharAt(s, a) == '0' then Ok(a + 1)
    else if !('1' <= CharAt(s, a) <= '9') then Err(InvalidNumber)
    else Ok(DigitsEnd(s, a))
  }

  /** The optional fraction at b: a point and at least one digit. */
  function FractionEnd(s: string, b: nat): (r: Result<nat>)
    requires b <= |s|
    ensures r.Ok? ==> b <= r.value <= |s|
  {
    if CharAt(s, b) != '.' then Ok(b)
    else if !IsDigit(CharAt(s, b + 1)) then Err(InvalidFraction)
    else Ok(DigitsEnd(s, b + 1))
  }

  /** The optional exponent at c: e or E, an optional sign and at least one
      digit. */
  function ExponentEnd(s: string, c: nat): (r: Result<nat>)
    requires c <= |s|
    ensures r.Ok? ==> c <= r.value <= |s|
  {
    if CharAt(s, c) != 'e' && CharAt(s, c) != 'E' then Ok(c)
    else
      var d := if CharAt(s, c + 1) == '+' || CharAt(s, c + 1) == '-' then c + 2 else c + 1;
      if !IsDigit(CharAt(s, d)) then Err(InvalidExponent)
      else Ok(DigitsEnd(s, d))
  }

  /** Where parse_number's scan of the number starting at i stops. */
  function NumberEnd(s: string, i: nat): (r: Result<nat>)
    requires i <= |s|
    ensures r.Ok? ==> i < r.value <= |s|
  {
    var a := if CharAt(s, i) == '-' then i + 1 else i;
    var b :- IntegerEnd(s, a);
    var c :- FractionEnd(s, b);
    ExponentEnd(s, c)
  }

  /** parse_number: the scanned text converted by stod. */
  function NumberAt(s: string, i: nat, stod: Stod): (r: Result<Parsed<JsonValue>>)
    requires i <= |s|
    ensures r.Ok? ==> i < r.value.next <= |s|
  {
    var j :- NumberEnd(s, i);
    match stod(s[i..j])
    case None => Err(OutOfRange)
    case Some(x) => Ok(Parsed(Number(x), j))
  }

  // ----- strings -----

  /** The character an escape \e stands for; None for the escapes the
      parser does not support, \u among them. */
  function Unescape(e: char): Option<char> {
    match e
    case '"' => Some('"')
    case '\\' => Some('\\')
    case '/' => Some('/')
    case 'b' => Some('\U{0008}')
    case 'f' => Some('\U{000C}')
    case 'n' => Some('\n')
    case 'r' => Some('\r')
    case 't' => Some('\t')
    case _ => None
  }

  /** parse_string: an opening quote, then the characters up to the
      closing one. */
  function StringAt(s: string, i: nat): (r: Result<Parsed<string>>)
    requires i <= |s|
    ensures r.Ok? ==> i < r.value.next <= |s|
  {
    if CharAt(s, i) != '"' then Err(UnexpectedToken)
    else CharsAt(s, i + 1, "")
  }

  /** The loop of parse_string from i, with acc decoded so far. */
  function CharsAt(s: string, i: nat, acc: string): (r: Result<Parsed<string>>)
    requires i <= |s|
    ensures r.Ok? ==> i < r.value.next <= |s|
    decreases |s| - i
  {
    if i == |s| then Err(UnterminatedString)
    else if s[i] == '"' then Ok(Parsed(acc, i + 1))
    else if s[i] == '\\' && i + 1 == |s| then Err(InvalidEscape)
    else if s[i] == '\\' && Unescape(s[i + 1]).None? then Err(UnsupportedEscape)
    else
      // one character: a raw one, or an escape of two
      var c := if s[i] == '\\' then Unescape(s[i + 1]).value else s[i];
      var width := if s[i] == '\\' then 2 else 1;
      CharsAt(s, i + width, acc + [c])
  }

  // ----- values, arrays and objects -----

  /** parse_value at i: skip white space, then dispatch on the next
      character. */
  function ValueAt(s: string, i: nat, stod: Stod): (r: Result<Parsed<JsonValue>>)
    requires i <= |s|
    ensures r.Ok? ==> i < r.value.next <= |s|
    decreases |s| - i, 1
  {
    var j := WsEnd(s, i);
    var c := CharAt(s, j);
    if c == '{' then ObjectAt(s, j, stod)
    else if c == '[' then ArrayAt(s, j, stod)
    else if c == '"' then
      var p :- StringAt(s, j);
      Ok(Parsed(String(p.value), p.next))
    else if c == '-' || IsDigit(c) then NumberAt(s, j, stod)
    else if At(s, j, "true") then Ok(Parsed(Bool(true), j + 4))
    else if At(s, j, "false") then Ok(Parsed(Bool(false), j + 5))
    else if At(s, j, "null") then Ok(Parsed(Null, j + 4))
    else Err(InvalidValue)
  }

  /** parse_array at i. */
  function ArrayAt(s: string, i: nat, stod: Stod): (r: Result<Parsed<JsonValue>>)
    requires i <= |s|
    ensures r.Ok? ==> i < r.value.next <= |s|
    decreases |s| - i, 0
  {
    if CharAt(s, i) != '[' then Err(UnexpectedToken)
    else
      var j := WsEnd(s, i + 1);
      if CharAt(s, j) == ']' then Ok(Parsed(Array([]), j + 1))
      else ElementsAt(s, j, [], stod)
  }

  /** The loop of parse_array from i, with the elements read so far. */
  function ElementsAt(s: string, i: nat, items: seq<JsonValue>, stod: Stod): (r: Result<Parsed<JsonValue>>)
    requires i <= |s|
    ensures r.Ok? ==> i < r.value.next <= |s|
    decreases |s| - i, 2
  {
    var p :- ValueAt(s, i, stod);
    var j := WsEnd(s, p.next);
    if CharAt(s, j) == ']' then Ok(Parsed(Array(items + [p.value]), j + 1))
    else if CharAt(s, j) != ',' then Err(UnexpectedToken)
    else ElementsAt(s, WsEnd(s, j + 1), items + [p.value], stod)
  }

  /** parse_object at i. */
  function ObjectAt(s: string, i: nat, stod: Stod): (r: Result<Parsed<JsonValue>>)
    requires i <= |s|
    ensures r.Ok? ==> i < r.value.next <= |s|
    decreases |s| - i, 0
  {
    if CharAt(s, i) != '{' then Err(UnexpectedToken)
    else
      var j := WsEnd(s, i + 1);
      if CharAt(s, j) == '}' then Ok(Parsed(Object([]), j + 1))
      else MembersAt(s, j, [], stod)
  }

  /** One turn of parse_object's loop at i: a string key, a colon and a
      value. */
  function MemberAt(s: string, i: nat, stod: Stod): (r: Result<Parsed<Member>>)
    requires i <= |s|
    ensures r.Ok? ==> i < r.value.next <= |s|
    decreases |s| - i, 1
  {
    if CharAt(s, i) != '"' then Err(KeyExpected)
    else
      var k :- StringAt(s, i);
      var j := WsEnd(s, k.next);
      if CharAt(s, j) != ':' then Err(UnexpectedToken)
      else
        var p :- ValueAt(s, j + 1, stod);
        Ok(Parsed(Member(k.value, p.value), p.next))
  }

  /** The loop of parse_object from i, with the members read so far. */
  function MembersAt(s: string, i: nat, members: seq<Member>, stod: Stod): (r: Result<Parsed<JsonValue>>)
    requires i <= |s|
    ensures r.Ok? ==> i < r.value.next <= |s|
    decreases |s| - i, 2
  {
    var m :- MemberAt(s, i, stod);
    var l := WsEnd(s, m.next);
    if CharAt(s, l) == '}' then Ok(Parsed(Object(members + [m.value]), l + 1))
    else if CharAt(s, l) != ',' then Err(UnexpectedToken)
    else MembersAt(s, WsEnd(s, l + 1), members + [m.value], stod)
  }

  /** parse(): one value, surrounded by white space only. */
  function Document(s: string, stod: Stod): Result<JsonValue> {
    var p :- ValueAt(s, WsEnd(s, 0), stod);
    if WsEnd(s, p.next) < |s| then Err(TrailingCharacters) else Ok(p.value)
  }

  // ----- runs of white space and digits -----

  /** skip_ws stops at the first non-space character: everything it skips
      is white space, and what it stops at is not. */
  lemma {:induction false} WsEndSpans(s: string, i: nat)
    requires i <= |s|
    ensures forall k :: i <= k < WsEnd(s, i) ==> IsSpace(s[k])
    ensures WsEnd(s, i) == |s| || !IsSpace(s[WsEnd(s, i)])
    decreases |s| - i
  {
    if i < |s| && IsSpace(s[i]) {
      WsEndSpans(s, i + 1);
    }
  }

  /** Conversely, a run of white space ended by a non-space character or
      the end of the text is exactly what skip_ws skips. */
  lemma {:induction false} WsRun(s: string, i: nat, j: nat)
    requires i <= j <= |s|
    requires forall k :: i <= k < j ==> IsSpace(s[k])
    requires j == |s| || !IsSpace(s[j])
    ensures WsEnd(s, i) == j
    decreases j - i
  {
    if i < j {
      WsRun(s, i + 1, j);
    }
  }

  /** The digits scanned from i form a run ended by a non-digit. */
  lemma {:induction false} DigitsEndSpans(s: string, i: nat)
    requires i <= |s|
    ensures forall k :: i <= k < DigitsEnd(s, i) ==> IsDigit(s[k])
    ensures DigitsEnd(s, i) == |s| || !IsDigit(s[DigitsEnd(s, i)])
    decreases |s| - i
  {
    if i < |s| && IsDigit(s[i]) {
      DigitsEndSpans(s, i + 1);
    }
  }

  lemma {:induction false} DigitsRun(s: string, i: nat, j: nat)
    requires i <= j <= |s|
    requires forall k :: i <= k < j ==> IsDigit(s[k])
    requires !IsDigit(CharAt(s, j))
    ensures DigitsEnd(s, i) == j
    decreases j - i
  {
    if i < j {
      DigitsRun(s, i + 1, j);
    }
  }

  // ----- the number grammar of section 6 of RFC 8259 -----

  /** s[a..b] is a (possibly empty) run of digits. */
  predicate DigitsIn(s: string, a: int, b: int) {
    0 <= a <= b <= |s| && forall k :: a <= k < b ==> IsDigit(s[k])
  }

  /** int = zero / ( digit1-9 *DIGIT ), spanning s[a..b]. */
  predicate IntegerSpan(s: string, a: int, b: int) {
    0 <= a < b <= |s| && ((b == a + 1 && s[a] == '0') || ('1' <= s[a] <= '9' && DigitsIn(s, a, b)))
  }

  /** frac = [ decimal-point 1*DIGIT ], spanning s[b..c]. */
  predicate FractionSpan(s: string, b: int, c: int) {
    0 <= b <= c <= |s| && (c == b || (b + 1 < c && s[b] == '.' && DigitsIn(s, b + 1, c)))
  }

  /** exp = [ e [ minus / plus ] 1*DIGIT ], spanning s[c..d]. */
  predicate ExponentSpan(s: string, c: int, d: int) {
    0 <= c <= d <= |s|
    && (d == c
        || (c + 1 < d && (s[c] == 'e' || s[c] == 'E')
            && (DigitsIn(s, c + 1, d) || (c + 2 < d && (s[c + 1] == '+' || s[c + 1] == '-') && DigitsIn(s, c + 2, d)))))
  }

  /** number = [ minus ] int [ frac ] [ exp ], spanning s[i..d]. */
  ghost predicate NumberSpan(s: string, i: int, d: int) {
    exists a, b, c ::
      0 <= i <= a <= b <= c <= d <= |s| && (a == i || (a == i + 1 && s[i] == '-'))
      && IntegerSpan(s, a, b) && FractionSpan(s, b, c) && ExponentSpan(s, c, d)
  }

  /** A whole text is a number of the grammar. */
  ghost predicate IsNumber(t: string) {
    NumberSpan(t, 0, |t|)
  }

  /** A character that cannot continue a number: the scan stops in front
      of it. */
  predicate Delimits(s: string, j: int) {
    var c := CharAt(s, j);
    !IsDigit(c) && c != '.' && c != 'e' && c != 'E'
  }

  lemma IntegerSound(s: string, a: nat)
    requires a <= |s| && IntegerEnd(s, a).Ok?
    ensures IntegerSpan(s, a, IntegerEnd(s, a).value)
  {
    DigitsEndSpans(s, a);
  }

  lemma FractionSound(s: string, b: nat)
    requires b <= |s| && FractionEnd(s, b).Ok?
    ensures FractionSpan(s, b, FractionEnd(s, b).value)
  {
    if CharAt(s, b) == '.' {
      DigitsEndSpans(s, b + 1);
    }
  }

  lemma ExponentSound(s: string, c: nat)
    requires c <= |s| && ExponentEnd(s, c).Ok?
    ensures ExponentSpan(s, c, ExponentEnd(s, c).value)
  {
    if CharAt(s, c) == 'e' || CharAt(s, c) == 'E' {
      DigitsEndSpans(s, if CharAt(s, c + 1) == '+' || CharAt(s, c + 1) == '-' then c + 2 else c + 1);
    }
  }

  /** Every text parse_number accepts is a number of the grammar. */
  lemma NumberSound(s: string, i: nat)
    requires i <= |s| && NumberEnd(s, i).Ok?
    ensures NumberSpan(s, i, NumberEnd(s, i).value)
  {
    var a := if CharAt(s, i) == '-' then i + 1 else i;
    IntegerSound(s, a);
    var b := IntegerEnd(s, a).value;
    FractionSound(s, b);
    var c := FractionEnd(s, b).value;
    ExponentSound(s, c);
    assert IntegerSpan(s, a, b) && FractionSpan(s, b, c) && ExponentSpan(s, c, NumberEnd(s, i).value);
  }

  lemma IntegerComplete(s: string, a: nat, b: nat)
    requires IntegerSpan(s, a, b) && !IsDigit(CharAt(s, b))
    ensures IntegerEnd(s, a) == Ok(b)
  {
    if CharAt(s, a) != '0' {
      DigitsRun(s, a, b);
    }
  }

  lemma FractionComplete(s: string, b: nat, c: nat)
    requires FractionSpan(s, b, c) && !IsDigit(CharAt(s, c)) && (b == c ==> CharAt(s, c) != '.')
    ensures FractionEnd(s, b) == Ok(c)
  {
    if b < c {
      DigitsRun(s, b + 1, c);
    }
  }

  lemma ExponentComplete(s: string, c: nat, d: nat)
    requires ExponentSpan(s, c, d) && Delimits(s, d)
    ensures ExponentEnd(s, c) == Ok(d)
  {
    if c < d {
      if DigitsIn(s, c + 1, d) {
        DigitsRun(s, c + 1, d);
      } else {
        DigitsRun(s, c + 2, d);
      }
    }
  }

  /** Every number of the grammar followed by a character that cannot
      continue it is scanned to its end. */
  lemma NumberComplete(s: string, i: nat, j: nat)
    requires NumberSpan(s, i, j) && Delimits(s, j)
    ensures NumberEnd(s, i) == Ok(j)
  {
    var a, b, c :| 0 <= i <= a <= b <= c <= j <= |s| && (a == i || (a == i + 1 && s[i] == '-'))
      && IntegerSpan(s, a, b) && FractionSpan(s, b, c) && ExponentSpan(s, c, j);
    IntegerComplete(s, a, b);
    FractionComplete(s, b, c);
    ExponentComplete(s, c, j);
  }

  /** A point needs a digit after it, and so does an exponent; a leading
      zero ends the integer part, so "01" is the number 0 followed by
      trailing text. */
  lemma NumberExamples(stod: Stod)
    ensures NumberEnd("1.", 0) == Err(InvalidFraction)
    ensures NumberEnd("1e", 0) == Err(InvalidExponent)
    ensures NumberEnd("1e+", 0) == Err(InvalidExponent)
    ensures NumberEnd("-", 0) == Err(InvalidNumber)
    ensures NumberEnd("01", 0) == Ok(1)
    ensures Document("01", stod).Err?
  {
    assert DigitsEnd("1.", 1) == 1;
    assert DigitsEnd("1e", 1) == 1;
    assert DigitsEnd("1e+", 1) == 1;
    assert WsEnd("01", 0) == 0;
  }

  // ----- what parse_string decodes -----

  /** s[i..j] holds no quote and no backslash. */
  predicate Plain(s: string, i: int, j: int) {
    0 <= i <= j <= |s| && forall k :: i <= k < j ==> s[k] != '"' && s[k] != '\\'
  }

  /** Characters other than a quote or a backslash are copied unchanged. */
  lemma {:induction false} PlainCopied(s: string, i: nat, j: nat, acc: string)
    requires Plain(s, i, j)
    ensures CharsAt(s, i, acc) == CharsAt(s, j, acc + s[i..j])
    decreases j - i
  {
    if i < j {
      PlainCopied(s, i + 1, j, acc + [s[i]]);
      assert acc + [s[i]] + s[i + 1..j] == acc + s[i..j];
    } else {
      assert acc + s[i..j] == acc;
    }
  }

  /** Between the quotes, raw characters are copied unchanged. */
  lemma RawString(s: string, i: nat, j: nat)
    requires i < j < |s| && s[i] == '"' && Plain(s, i + 1, j) && s[j] == '"'
    ensures StringAt(s, i) == Ok(Parsed(s[i + 1..j], j + 1))
  {
    PlainCopied(s, i + 1, j, "");
    assert "" + s[i + 1..j] == s[i + 1..j];
  }

  /** Without its closing quote a string is rejected. */
  lemma Unterminated(s: string, i: nat)
    requires i < |s| && s[i] == '"' && Plain(s, i + 1, |s|)
    ensures StringAt(s, i) == Err(UnterminatedString)
  {
    PlainCopied(s, i + 1, |s|, "");
  }

  /** The first escape decides: one that is not supported, \u included, or a
      backslash at the very end rejects the string. */
  lemma BadEscape(s: string, i: nat, j: nat)
    requires i < j < |s| && s[i] == '"' && Plain(s, i + 1, j) && s[j] == '\\'
    requires j + 1 < |s| ==> Unescape(s[j + 1]).None?
    ensures StringAt(s, i) == Err(if j + 1 == |s| then InvalidEscape else UnsupportedEscape)
  {
    PlainCopied(s, i + 1, j, "");
  }

  // ----- a writer, and reading back what it writes -----

  /** s holds the text t at position i; consume(kw) tests At(s, pos, kw). */
  predicate At(s: string, i: int, t: string)
    decreases |t|
  {
    0 <= i && i + |t| <= |s| && (|t| == 0 || (s[i] == t[0] && At(s, i + 1, t[1..])))
  }

  lemma {:induction false} AtIndex(s: string, i: int, t: string, k: int)
    requires At(s, i, t) && 0 <= k < |t|
    ensures s[i + k] == t[k]
    decreases k
  {
    if k > 0 {
      AtIndex(s, i + 1, t[1..], k - 1);
    }
  }

  lemma {:induction false} AtConcat(s: string, i: int, a: string, b: string)
    requires At(s, i, a + b)
    ensures At(s, i, a) && At(s, i + |a|, b)
    decreases |a|
  {
    if |a| == 0 {
      assert a + b == b;
    } else {
      assert (a + b)[1..] == a[1..] + b;
      AtConcat(s, i + 1, a[1..], b);
    }
  }

  /** Every piece of a text is at its own place. */
  lemma {:induction false} AtSlice(s: string, i: nat, j: nat)
    requires i <= j <= |s|
    ensures At(s, i, s[i..j])
    decreases j - i
  {
    if i < j {
      assert s[i..j][1..] == s[i + 1..j];
      AtSlice(s, i + 1, j);
    }
  }

  /** How the writer spells a character inside quotes. */
  function Escape(c: char): string {
    if c == '"' then "\\\""
    else if c == '\\' then "\\\\"
    else if c == '\U{0008}' then "\\b"
    else if c == '\U{000C}' then "\\f"
    else if c == '\n' then "\\n"
    else if c == '\r' then "\\r"
    else if c == '\t' then "\\t"
    else [c]
  }

  function EscapeAll(t: string): string
    decreases |t|
  {
    if |t| == 0 then "" else Escape(t[0]) + EscapeAll(t[1..])
  }

  /** A string literal for t. */
  function Quote(t: string): string {
    "\"" + EscapeAll(t) + "\""
  }

  /** One escaped character decodes back to itself. */
  lemma EscapeStep(s: string, i: nat, acc: string, c: char)
    requires At(s, i, Escape(c))
    ensures CharsAt(s, i, acc) == CharsAt(s, i + |Escape(c)|, acc + [c])
  {
    AtIndex(s, i, Escape(c), 0);
    if |Escape(c)| == 2 {
      AtIndex(s, i, Escape(c), 1);
    }
  }

  lemma AppendHead(acc: string, t: string)
    requires |t| > 0
    ensures acc + [t[0]] + t[1..] == acc + t
  {}

  lemma DecodeStep(s: string, i: nat, acc: string, t: string)
    requires |t| > 0 && At(s, i, EscapeAll(t))
    ensures At(s, i + |Escape(t[0])|, EscapeAll(t[1..]))
    ensures |EscapeAll(t)| == |Escape(t[0])| + |EscapeAll(t[1..])|
    ensures CharsAt(s, i, acc) == CharsAt(s, i + |Escape(t[0])|, acc + [t[0]])
  {
    AtConcat(s, i, Escape(t[0]), EscapeAll(t[1..]));
    EscapeStep(s, i, acc, t[0]);
  }

  /** The escaped text of t decodes back to t. */
  lemma {:induction false} EscapedDecodes(s: string, i: nat, acc: string, t: string)
    requires At(s, i, EscapeAll(t))
    ensures CharsAt(s, i, acc) == CharsAt(s, i + |EscapeAll(t)|, acc + t)
    decreases |t|
  {
    if |t| == 0 {
      assert acc + t == acc;
    } else {
      DecodeStep(s, i, acc, t);
      EscapedDecodes(s, i + |Escape(t[0])|, acc + [t[0]], t[1..]);
      AppendHead(acc, t);
    }
  }

  /** parse_string reads back what Quote writes. */
  lemma QuoteRoundTrip(s: string, i: nat, t: string)
    requires At(s, i, Quote(t))
    ensures StringAt(s, i) == Ok(Parsed(t, i + |Quote(t)|))
  {
    var body := EscapeAll(t);
    assert Quote(t) == "\"" + body + "\"";
    AtConcat(s, i, "\"" + body, "\"");
    AtConcat(s, i, "\"", body);
    AtIndex(s, i, "\"", 0);
    AtIndex(s, i + 1 + |body|, "\"", 0);
    EscapedDecodes(s, i + 1, "", t);
    assert "" + t == t;
  }

  /** A writer for values: the text a conforming writer produces, with
      numbers spelled by show. */
  function Serialize(v: JsonValue, show: real -> string): string
    decreases v
  {
    match v
    case Null => "null"
    case Bool(b) => if b then "true" else "false"
    case Number(x) => show(x)
    case String(t) => Quote(t)
    case Array(items) => "[" + (SerializeItems(items, show) + "]")
    case Object(members) => "{" + (SerializeMembers(members, show) + "}")
  }

  /** Array elements separated by commas. */
  function SerializeItems(items: seq<JsonValue>, show: real -> string): string
    decreases items
  {
    if |items| == 0 then ""
    else if |items| == 1 then Serialize(items[0], show)
    else Serialize(items[0], show) + ("," + SerializeItems(items[1..], show))
  }

  function SerializeMember(m: Member, show: real -> string): string
    decreases m
  {
    Quote(m.key) + (":" + Serialize(m.value, show))
  }

  /** Object members separated by commas, in order. */
  function SerializeMembers(members: seq<Member>, show: real -> string): string
    decreases members
  {
    if |members| == 0 then ""
    else if |members| == 1 then SerializeMember(members[0], show)
    else SerializeMember(members[0], show) + ("," + SerializeMembers(members[1..], show))
  }

  /** show spells x in the number grammar, and stod reads that text back as x. */
  ghost predicate Spells(show: real -> string, stod: Stod, x: real) {
    IsNumber(show(x)) && stod(show(x)) == Some(x)
  }

  /** Every number occurring in v is spelled by show and read back by stod;
      a value without numbers is readable whatever show and stod are. */
  ghost predicate Readable(v: JsonValue, show: real -> string, stod: Stod)
    decreases v
  {
    match v
    case Number(x) => Spells(show, stod, x)
    case Array(items) => forall k :: 0 <= k < |items| ==> Readable(items[k], show, stod)
    case Object(members) => forall k :: 0 <= k < |members| ==> Readable(members[k].value, show, stod)
    case _ => true
  }

  ghost predicate ItemsReadable(items: seq<JsonValue>, show: real -> string, stod: Stod) {
    forall k :: 0 <= k < |items| ==> Readable(items[k], show, stod)
  }

  ghost predicate MembersReadable(members: seq<Member>, show: real -> string, stod: Stod) {
    forall k :: 0 <= k < |members| ==> Readable(members[k].value, show, stod)
  }

  /** The characters a written value can start with. */
  predicate StartsValue(c: char) {
    c == '-' || IsDigit(c) || c == '"' || c == '[' || c == '{' || c == 't' || c == 'f' || c == 'n'
  }

  lemma NumberStarts(t: string)
    requires IsNumber(t)
    ensures |t| > 0 && (t[0] == '-' || IsDigit(t[0]))
  {
    var a, b, c :| 0 <= 0 <= a <= b <= c <= |t| <= |t| && (a == 0 || (a == 1 && t[0] == '-'))
      && IntegerSpan(t, a, b) && FractionSpan(t, b, c) && ExponentSpan(t, c, |t|);
  }

  lemma SerializeStarts(v: JsonValue, show: real -> string, stod: Stod)
    requires Readable(v, show, stod)
    ensures |Serialize(v, show)| > 0 && StartsValue(Serialize(v, show)[0])
  {
    if v.Number? {
      NumberStarts(show(v.n));
    }
  }

  lemma ItemsStart(items: seq<JsonValue>, show: real -> string, stod: Stod)
    requires |items| > 0 && Readable(items[0], show, stod)
    ensures |SerializeItems(items, show)| > 0 && StartsValue(SerializeItems(items, show)[0])
  {
    SerializeStarts(items[0], show, stod);
  }

  lemma MembersStart(members: seq<Member>, show: real -> string)
    requires |members| > 0
    ensures |SerializeMembers(members, show)| > 0 && SerializeMembers(members, show)[0] == '"'
  {
    assert SerializeMember(members[0], show)[0] == '"';
  }

  // ----- the grammar at another place -----

  lemma DigitsShift(s: string, i: nat, t: string, a: int, b: int)
    requires At(s, i, t) && DigitsIn(t, a, b)
    ensures DigitsIn(s, i + a, i + b)
  {
    forall k | i + a <= k < i + b
      ensures IsDigit(s[k])
    {
      AtIndex(s, i, t, k - i);
    }
  }

  lemma IntegerShift(s: string, i: nat, t: string, a: int, b: int)
    requires At(s, i, t) && IntegerSpan(t, a, b)
    ensures IntegerSpan(s, i + a, i + b)
  {
    AtIndex(s, i, t, a);
    if t[a] != '0' {
      DigitsShift(s, i, t, a, b);
    }
  }

  lemma FractionShift(s: string, i: nat, t: string, b: int, c: int)
    requires At(s, i, t) && FractionSpan(t, b, c)
    ensures FractionSpan(s, i + b, i + c)
  {
    if b < c {
      AtIndex(s, i, t, b);
      DigitsShift(s, i, t, b + 1, c);
    }
  }

  lemma ExponentShift(s: string, i: nat, t: string, c: int, d: int)
    requires At(s, i, t) && ExponentSpan(t, c, d)
    ensures ExponentSpan(s, i + c, i + d)
  {
    if c < d {
      AtIndex(s, i, t, c);
      if DigitsIn(t, c + 1, d) {
        DigitsShift(s, i, t, c + 1, d);
      } else {
        AtIndex(s, i, t, c + 1);
        DigitsShift(s, i, t, c + 2, d);
      }
    }
  }

  /** A number the writer spells is a number of the grammar at its place
      in the text. */
  lemma NumberShift(s: string, i: nat, t: string)
    requires IsNumber(t) && At(s, i, t)
    ensures NumberSpan(s, i, i + |t|)
  {
    var a, b, c :| 0 <= 0 <= a <= b <= c <= |t| <= |t| && (a == 0 || (a == 1 && t[0] == '-'))
      && IntegerSpan(t, a, b) && FractionSpan(t, b, c) && ExponentSpan(t, c, |t|);
    IntegerShift(s, i, t, a, b);
    FractionShift(s, i, t, b, c);
    ExponentShift(s, i, t, c, |t|);
    if a == 1 {
      AtIndex(s, i, t, 0);
    }
    assert 0 <= i <= i + a <= i + b <= i + c <= i + |t| <= |s| && (i + a == i || (i + a == i + 1 && s[i] == '-'))
      && IntegerSpan(s, i + a, i + b) && FractionSpan(s, i + b, i + c) && ExponentSpan(s, i + c, i + |t|);
  }

  // ----- one turn of the array and object loops -----

  /** The last element of an array, then its closing bracket. */
  lemma ElementsClose(s: string, i: nat, items: seq<JsonValue>, stod: Stod, p: Parsed<JsonValue>)
    requires i <= |s| && ValueAt(s, i, stod) == Ok(p) && CharAt(s, p.next) == ']'
    ensures ElementsAt(s, i, items, stod) == Ok(Parsed(Array(items + [p.value]), p.next + 1))
  {
    assert WsEnd(s, p.next) == p.next;
  }

  /** An element, then a comma: the loop goes on after the comma. */
  lemma ElementsNext(s: string, i: nat, items: seq<JsonValue>, stod: Stod, p: Parsed<JsonValue>)
    requires i <= |s| && ValueAt(s, i, stod) == Ok(p) && CharAt(s, p.next) == ','
    requires !IsSpace(CharAt(s, p.next + 1))
    ensures ElementsAt(s, i, items, stod) == ElementsAt(s, p.next + 1, items + [p.value], stod)
  {
    assert WsEnd(s, p.next) == p.next;
    assert WsEnd(s, p.next + 1) == p.next + 1;
  }

  /** A member, then the closing brace. */
  lemma MembersClose(s: string, i: nat, members: seq<Member>, stod: Stod, m: Parsed<Member>)
    requires i <= |s| && MemberAt(s, i, stod) == Ok(m) && CharAt(s, m.next) == '}'
    ensures MembersAt(s, i, members, stod) == Ok(Parsed(Object(members + [m.value]), m.next + 1))
  {
    assert WsEnd(s, m.next) == m.next;
  }

  /** A member, then a comma: the loop goes on after it. */
  lemma MembersNext(s: string, i: nat, members: seq<Member>, stod: Stod, m: Parsed<Member>)
    requires i <= |s| && MemberAt(s, i, stod) == Ok(m) && CharAt(s, m.next) == ','
    requires !IsSpace(CharAt(s, m.next + 1))
    ensures MembersAt(s, i, members, stod) == MembersAt(s, m.next + 1, members + [m.value], stod)
  {
    assert WsEnd(s, m.next) == m.next;
    assert WsEnd(s, m.next + 1) == m.next + 1;
  }

  // ----- where the pieces of a written value lie -----

  /** An opening character, a body and a closing character. */
  lemma BracketLayout(s: string, i: int, open: char, body: string, close: char)
    requires At(s, i, [open] + (body + [close]))
    ensures CharAt(s, i) == open && At(s, i + 1, body) && CharAt(s, i + 1 + |body|) == close
  {
    AtConcat(s, i, [open], body + [close]);
    AtConcat(s, i + 1, body, [close]);
    AtIndex(s, i, [open], 0);
    AtIndex(s, i + 1 + |body|, [close], 0);
  }

  /** A piece, a separator and the rest. */
  lemma SeparatorLayout(s: string, i: int, head: string, sep: char, rest: string)
    requires At(s, i, head + ([sep] + rest))
    ensures At(s, i, head) && CharAt(s, i + |head|) == sep && At(s, i + |head| + 1, rest)
  {
    AtConcat(s, i, head, [sep] + rest);
    AtConcat(s, i + |head|, [sep], rest);
    AtIndex(s, i + |head|, [sep], 0);
  }

  /** The first character of a text at its place. */
  lemma AtFirst(s: string, i: int, t: string)
    requires At(s, i, t) && |t| > 0
    ensures CharAt(s, i) == t[0]
  {
    AtIndex(s, i, t, 0);
  }

  /** An array is written as a bracket, its elements and a bracket. */
  lemma ArrayLayout(items: seq<JsonValue>, show: real -> string, stod: Stod, s: string, i: int)
    requires ItemsReadable(items, show, stod) && At(s, i, Serialize(Array(items), show))
    ensures var body := SerializeItems(items, show);
      && 0 <= i && i + |body| + 2 <= |s| && |Serialize(Array(items), show)| == |body| + 2
      && CharAt(s, i) == '[' && At(s, i + 1, body) && CharAt(s, i + 1 + |body|) == ']'
      && (|items| == 0 ==> |body| == 0) && (|items| > 0 ==> StartsValue(CharAt(s, i + 1)))
  {
    var body := SerializeItems(items, show);
    BracketLayout(s, i, '[', body, ']');
    if |items| > 0 {
      ItemsStart(items, show, stod);
      AtFirst(s, i + 1, body);
    }
  }

  /** An object is written as a brace, its members and a brace. */
  lemma ObjectLayout(members: seq<Member>, show: real -> string, s: string, i: int)
    requires At(s, i, Serialize(Object(members), show))
    ensures var body := SerializeMembers(members, show);
      && 0 <= i && i + |body| + 2 <= |s| && |Serialize(Object(members), show)| == |body| + 2
      && CharAt(s, i) == '{' && At(s, i + 1, body) && CharAt(s, i + 1 + |body|) == '}'
      && (|members| == 0 ==> |body| == 0) && (|members| > 0 ==> CharAt(s, i + 1) == '"')
  {
    var body := SerializeMembers(members, show);
    BracketLayout(s, i, '{', body, '}');
    if |members| > 0 {
      MembersStart(members, show);
      AtFirst(s, i + 1, body);
    }
  }

  /** The first element, then either nothing or a comma and the others. */
  lemma ItemsLayout(items: seq<JsonValue>, show: real -> string, stod: Stod, s: string, i: int)
    requires ItemsReadable(items, show, stod) && |items| > 0 && At(s, i, SerializeItems(items, show))
    ensures var n := |Serialize(items[0], show)|;
      && 0 <= i && i + |SerializeItems(items, show)| <= |s| && At(s, i, Serialize(items[0], show))
      && (|items| == 1 ==> |SerializeItems(items, show)| == n)
      && (|items| > 1 ==>
            |SerializeItems(items, show)| == n + 1 + |SerializeItems(items[1..], show)|
            && CharAt(s, i + n) == ',' && At(s, i + n + 1, SerializeItems(items[1..], show))
            && StartsValue(CharAt(s, i + n + 1)))
  {
    if |items| > 1 {
      var rest := SerializeItems(items[1..], show);
      SeparatorLayout(s, i, Serialize(items[0], show), ',', rest);
      assert items[1..][0] == items[1];
      ItemsStart(items[1..], show, stod);
      AtFirst(s, i + |Serialize(items[0], show)| + 1, rest);
    }
  }

  /** The first member, then either nothing or a comma and the others. */
  lemma MembersLayout(members: seq<Member>, show: real -> string, s: string, i: int)
    requires |members| > 0 && At(s, i, SerializeMembers(members, show))
    ensures var n := |SerializeMember(members[0], show)|;
      && 0 <= i && i + |SerializeMembers(members, show)| <= |s| && At(s, i, SerializeMember(members[0], show))
      && (|members| == 1 ==> |SerializeMembers(members, show)| == n)
      && (|members| > 1 ==>
            |SerializeMembers(members, show)| == n + 1 + |SerializeMembers(members[1..], show)|
            && CharAt(s, i + n) == ',' && At(s, i + n + 1, SerializeMembers(members[1..], show))
            && CharAt(s, i + n + 1) == '"')
  {
    if |members| > 1 {
      var rest := SerializeMembers(members[1..], show);
      SeparatorLayout(s, i, SerializeMember(members[0], show), ',', rest);
      MembersStart(members[1..], show);
      AtFirst(s, i + |SerializeMember(members[0], show)| + 1, rest);
    }
  }

  /** A member is written as its key, a colon and its value. */
  lemma MemberLayout(m: Member, show: real -> string, s: string, i: int)
    requires At(s, i, SerializeMember(m, show))
    ensures var k := |Quote(m.key)|;
      && |SerializeMember(m, show)| == k + 1 + |Serialize(m.value, show)|
      && CharAt(s, i) == '"' && At(s, i, Quote(m.key)) && CharAt(s, i + k) == ':'
      && At(s, i + k + 1, Serialize(m.value, show))
  {
    SeparatorLayout(s, i, Quote(m.key), ':', Serialize(m.value, show));
    AtFirst(s, i, Quote(m.key));
  }

  /** An opening bracket, then the first element. */
  lemma ArrayOpen(s: string, i: nat, stod: Stod)
    requires i <= |s| && CharAt(s, i) == '[' && !IsSpace(CharAt(s, i + 1)) && CharAt(s, i + 1) != ']'
    ensures ArrayAt(s, i, stod) == ElementsAt(s, i + 1, [], stod)
  {
    assert WsEnd(s, i + 1) == i + 1;
  }

  /** A bracket closed straight away. */
  lemma ArrayEmpty(s: string, i: nat, stod: Stod)
    requires i <= |s| && CharAt(s, i) == '[' && CharAt(s, i + 1) == ']'
    ensures ArrayAt(s, i, stod) == Ok(Parsed(Array([]), i + 2))
  {
    assert WsEnd(s, i + 1) == i + 1;
  }

  /** An opening brace, then the first member. */
  lemma ObjectOpen(s: string, i: nat, stod: Stod)
    requires i <= |s| && CharAt(s, i) == '{' && !IsSpace(CharAt(s, i + 1)) && CharAt(s, i + 1) != '}'
    ensures ObjectAt(s, i, stod) == MembersAt(s, i + 1, [], stod)
  {
    assert WsEnd(s, i + 1) == i + 1;
  }

  /** A brace closed straight away. */
  lemma ObjectEmpty(s: string, i: nat, stod: Stod)
    requires i <= |s| && CharAt(s, i) == '{' && CharAt(s, i + 1) == '}'
    ensures ObjectAt(s, i, stod) == Ok(Parsed(Object([]), i + 2))
  {
    assert WsEnd(s, i + 1) == i + 1;
  }

  // ----- reading back -----

  /** Literals are read back. */
  lemma NullRoundTrip(s: string, i: nat, stod: Stod)
    requires At(s, i, "null")
    ensures ValueAt(s, i, stod) == Ok(Parsed(Null, i + 4))
  {
    assert WsEnd(s, i) == i;
  }

  lemma BoolRoundTrip(s: string, i: nat, stod: Stod, b: bool)
    requires At(s, i, if b then "true" else "false")
    ensures ValueAt(s, i, stod) == Ok(Parsed(Bool(b), i + if b then 4 else 5))
  {
    assert WsEnd(s, i) == i;
  }

  /** A number written in the grammar and followed by a delimiter is read
      back as whatever stod makes of its text. */
  lemma NumberRoundTrip(s: string, i: nat, stod: Stod, t: string, x: real)
    requires IsNumber(t) && stod(t) == Some(x)
    requires At(s, i, t) && Delimits(s, i + |t|)
    ensures ValueAt(s, i, stod) == Ok(Parsed(Number(x), i + |t|))
  {
    hide ArrayAt, ElementsAt, ObjectAt, MembersAt, MemberAt, StringAt, CharsAt;
    NumberStarts(t);
    AtIndex(s, i, t, 0);
    assert WsEnd(s, i) == i;
    NumberShift(s, i, t);
    NumberComplete(s, i, i + |t|);
    AtMatches(s, i, t);
  }

  lemma StringRoundTrip(s: string, i: nat, stod: Stod, t: string)
    requires At(s, i, Quote(t))
    ensures ValueAt(s, i, stod) == Ok(Parsed(String(t), i + |Quote(t)|))
  {
    AtIndex(s, i, Quote(t), 0);
    assert WsEnd(s, i) == i;
    QuoteRoundTrip(s, i, t);
  }

  /** parse_value hands an opening bracket or brace to parse_array or
      parse_object. */
  lemma ValueDispatch(s: string, i: nat, stod: Stod)
    requires i <= |s| && (CharAt(s, i) == '[' || CharAt(s, i) == '{')
    ensures ValueAt(s, i, stod) == if CharAt(s, i) == '[' then ArrayAt(s, i, stod) else ObjectAt(s, i, stod)
  {
    assert WsEnd(s, i) == i;
  }

  /** A written value is read back, whatever follows it that cannot
      continue a number. */
  lemma ValueRoundTrip(v: JsonValue, show: real -> string, stod: Stod, s: string, i: nat)
    requires Readable(v, show, stod)
    requires At(s, i, Serialize(v, show)) && Delimits(s, i + |Serialize(v, show)|)
    ensures ValueAt(s, i, stod) == Ok(Parsed(v, i + |Serialize(v, show)|))
    decreases v, 1
  {
    hide ValueAt, ArrayAt, ElementsAt, ObjectAt, MembersAt, MemberAt, StringAt, CharsAt, NumberAt, WsEnd;
    hide Serialize, SerializeItems, SerializeMember, SerializeMembers, Quote, EscapeAll, At;
    match v
    case Array(items) =>
      ArrayLayout(items, show, stod, s, i);
      ValueDispatch(s, i, stod);
      ArrayRoundTrip(items, show, stod, s, i);
    case Object(members) =>
      ObjectLayout(members, show, s, i);
      ValueDispatch(s, i, stod);
      ObjectRoundTrip(members, show, stod, s, i);
    case _ =>
      ScalarRoundTrip(v, show, stod, s, i);
  }

  /** Null, true, false, a number or a string is read back. */
  lemma ScalarRoundTrip(v: JsonValue, show: real -> string, stod: Stod, s: string, i: nat)
    requires Readable(v, show, stod) && !v.Array? && !v.Object?
    requires At(s, i, Serialize(v, show)) && Delimits(s, i + |Serialize(v, show)|)
    ensures ValueAt(s, i, stod) == Ok(Parsed(v, i + |Serialize(v, show)|))
  {
    hide ValueAt, ArrayAt, ElementsAt, ObjectAt, MembersAt, MemberAt, StringAt, CharsAt, NumberAt, WsEnd;
    match v
    case Null =>
      NullRoundTrip(s, i, stod);
    case Bool(b) =>
      BoolRoundTrip(s, i, stod, b);
    case Number(x) =>
      NumberRoundTrip(s, i, stod, show(x), x);
    case String(str) =>
      StringRoundTrip(s, i, stod, str);
  }

  lemma ArrayRoundTrip(items: seq<JsonValue>, show: real -> string, stod: Stod, s: string, i: nat)
    requires ItemsReadable(items, show, stod)
    requires At(s, i, Serialize(Array(items), show))
    ensures ArrayAt(s, i, stod) == Ok(Parsed(Array(items), i + |Serialize(Array(items), show)|))
    decreases Array(items), 0
  {
    hide ValueAt, ArrayAt, ElementsAt, ObjectAt, MembersAt, MemberAt, StringAt, CharsAt, NumberAt, WsEnd;
    hide Serialize, SerializeItems, SerializeMember, SerializeMembers, Quote, EscapeAll, At;
    ArrayLayout(items, show, stod, s, i);
    if |items| == 0 {
      ArrayEmpty(s, i, stod);
    } else {
      ArrayOpen(s, i, stod);
      ElementsRoundTrip(items, show, stod, s, i + 1, []);
      assert [] + items == items;
    }
  }

  /** The comma-separated elements and the closing bracket are read back. */
  lemma ElementsRoundTrip(items: seq<JsonValue>, show: real -> string, stod: Stod, s: string, i: nat, done: seq<JsonValue>)
    requires ItemsReadable(items, show, stod) && |items| > 0
    requires At(s, i, SerializeItems(items, show)) && CharAt(s, i + |SerializeItems(items, show)|) == ']'
    ensures ElementsAt(s, i, done, stod) == Ok(Parsed(Array(done + items), i + |SerializeItems(items, show)| + 1))
    decreases items
  {
    hide ValueAt, ArrayAt, ElementsAt, ObjectAt, MembersAt, MemberAt, StringAt, CharsAt, NumberAt, WsEnd;
    hide Serialize, SerializeItems, SerializeMember, SerializeMembers, Quote, EscapeAll, At;
    ItemsLayout(items, show, stod, s, i);
    var n := |Serialize(items[0], show)|;
    ValueRoundTrip(items[0], show, stod, s, i);
    if |items| == 1 {
      ElementsClose(s, i, done, stod, Parsed(items[0], i + n));
      assert done + [items[0]] == done + items;
    } else {
      ElementsNext(s, i, done, stod, Parsed(items[0], i + n));
      ElementsRoundTrip(items[1..], show, stod, s, i + n + 1, done + [items[0]]);
      assert done + [items[0]] + items[1..] == done + items;
    }
  }

  lemma ObjectRoundTrip(members: seq<Member>, show: real -> string, stod: Stod, s: string, i: nat)
    requires MembersReadable(members, show, stod)
    requires At(s, i, Serialize(Object(members), show))
    ensures ObjectAt(s, i, stod) == Ok(Parsed(Object(members), i + |Serialize(Object(members), show)|))
    decreases Object(members), 0
  {
    hide ValueAt, ArrayAt, ElementsAt, ObjectAt, MembersAt, MemberAt, StringAt, CharsAt, NumberAt, WsEnd;
    hide Serialize, SerializeItems, SerializeMember, SerializeMembers, Quote, EscapeAll, At;
    ObjectLayout(members, show, s, i);
    if |members| == 0 {
      ObjectEmpty(s, i, stod);
    } else {
      ObjectOpen(s, i, stod);
      MembersRoundTrip(members, show, stod, s, i + 1, []);
      assert [] + members == members;
    }
  }

  /** One member: its key, a colon and its value. */
  lemma MemberRoundTrip(m: Member, show: real -> string, stod: Stod, s: string, i: nat)
    requires Readable(m.value, show, stod)
    requires At(s, i, SerializeMember(m, show)) && Delimits(s, i + |SerializeMember(m, show)|)
    ensures MemberAt(s, i, stod) == Ok(Parsed(m, i + |SerializeMember(m, show)|))
    decreases m, 1
  {
    hide ValueAt, ArrayAt, ElementsAt, ObjectAt, MembersAt, StringAt, CharsAt, NumberAt;
    hide Serialize, SerializeItems, SerializeMember, SerializeMembers, Quote, EscapeAll, At;
    MemberLayout(m, show, s, i);
    QuoteRoundTrip(s, i, m.key);
    ValueRoundTrip(m.value, show, stod, s, i + |Quote(m.key)| + 1);
    assert WsEnd(s, i + |Quote(m.key)|) == i + |Quote(m.key)|;
  }

  /** The comma-separated members and the closing brace are read back, in
      order and with repeated keys kept. */
  lemma MembersRoundTrip(members: seq<Member>, show: real -> string, stod: Stod, s: string, i: nat, done: seq<Member>)
    requires MembersReadable(members, show, stod) && |members| > 0
    requires At(s, i, SerializeMembers(members, show)) && CharAt(s, i + |SerializeMembers(members, show)|) == '}'
    ensures MembersAt(s, i, done, stod) == Ok(Parsed(Object(done + members), i + |SerializeMembers(members, show)| + 1))
    decreases members
  {
    hide ValueAt, ArrayAt, ElementsAt, ObjectAt, MembersAt, MemberAt, StringAt, CharsAt, NumberAt, WsEnd;
    hide Serialize, SerializeItems, SerializeMember, SerializeMembers, Quote, EscapeAll, At;
    MembersLayout(members, show, s, i);
    var m := members[0];
    var n := |SerializeMember(m, show)|;
    MemberRoundTrip(m, show, stod, s, i);
    if |members| == 1 {
      MembersClose(s, i, done, stod, Parsed(m, i + n));
      assert done + [m] == done + members;
    } else {
      MembersNext(s, i, done, stod, Parsed(m, i + n));
      MembersRoundTrip(members[1..], show, stod, s, i + n + 1, done + [m]);
      assert done + [m] + members[1..] == done + members;
    }
  }

  /** Every character of t is white space. */
  predicate AllSpace(t: string) {
    forall k :: 0 <= k < |t| ==> IsSpace(t[k])
  }

  /** parse() reads back a written value between runs of white space, and
      rejects it as soon as anything else follows. */
  lemma DocumentRoundTrip(v: JsonValue, show: real -> string, stod: Stod, lead: string, rest: string)
    requires Readable(v, show, stod) && AllSpace(lead) && Delimits(rest, 0)
    ensures Document(lead + Serialize(v, show) + rest, stod) == if AllSpace(rest) then Ok(v) else Err(TrailingCharacters)
  {
    var t := Serialize(v, show);
    hide ValueAt, ArrayAt, ElementsAt, ObjectAt, MembersAt, MemberAt, StringAt, CharsAt, NumberAt;
    hide Serialize, SerializeItems, SerializeMember, SerializeMembers, Quote, EscapeAll, At;
    var s := lead + t + rest;
    var i, e := |lead|, |lead| + |t|;
    assert s[i..e] == t;
    AtSlice(s, i, e);
    SerializeStarts(v, show, stod);
    assert s[i] == t[0];
    WsRun(s, 0, i);
    assert CharAt(s, e) == CharAt(rest, 0);
    ValueRoundTrip(v, show, stod, s, i);
    if AllSpace(rest) {
      WsRun(s, e, |s|);
    } else {
      WsEndSpans(s, e);
      var k :| 0 <= k < |rest| && !IsSpace(rest[k]);
      assert s[e + k] == rest[k];
    }
  }

  /** The conversion used by the example below: "1" reads as 1, and no
      other text converts. */
  function ReadOne(t: string): Option<real> {
    if t == "1" then Some(1.0) else None
  }

  /** The writer used by the example below: every number is written "1". */
  function ShowOne(x: real): string {
    "1"
  }

  function ExampleValue(): JsonValue {
    Array([Number(1.0), Object([Member("a", Null)]), Bool(true)])
  }

  lemma ExampleReadable()
    ensures Readable(ExampleValue(), ShowOne, ReadOne)
  {
    assert IntegerSpan("1", 0, 1) && FractionSpan("1", 1, 1) && ExponentSpan("1", 1, 1);
    assert IsNumber("1");
  }

  lemma ExampleObjectText()
    ensures Serialize(Object([Member("a", Null)]), ShowOne) == "{\"a\":null}"
  {
    assert Quote("a") == "\"a\"";
  }

  lemma ExampleText()
    ensures "" + Serialize(ExampleValue(), ShowOne) + "" == "[1,{\"a\":null},true]"
  {
    ExampleObjectText();
    assert SerializeItems([Bool(true)], ShowOne) == "true";
    assert SerializeItems([Object([Member("a", Null)]), Bool(true)], ShowOne) == "{\"a\":null},true";
  }

  /** A concrete document read back by DocumentRoundTrip: its one number,
      1, is written "1", which ReadOne converts back. */
  lemma DocumentExample()
    ensures Document("[1,{\"a\":null},true]", ReadOne)
      == Ok(Array([Number(1.0), Object([Member("a", Null)]), Bool(true)]))
  {
    hide Document, ValueAt, WsEnd, Serialize, SerializeItems, SerializeMember, SerializeMembers, Quote, EscapeAll, Readable;
    ExampleReadable();
    ExampleText();
    DocumentRoundTrip(ExampleValue(), ShowOne, ReadOne, "", "");
  }

  /** skip_ws twice skips no more than once. */
  lemma WsEndAgain(s: string, i: nat)
    requires i <= |s|
    ensures WsEnd(s, WsEnd(s, i)) == WsEnd(s, i)
  {
    WsEndSpans(s, i);
  }

  /** A comma must be followed by another element: an array such as [1,]
      is rejected. */
  lemma ArrayTrailingComma(s: string, i: nat, items: seq<JsonValue>, stod: Stod, p: Parsed<JsonValue>)
    requires i <= |s| && ValueAt(s, i, stod) == Ok(p)
    requires CharAt(s, WsEnd(s, p.next)) == ',' && CharAt(s, WsEnd(s, WsEnd(s, p.next) + 1)) == ']'
    ensures ElementsAt(s, i, items, stod) == Err(InvalidValue)
  {
    hide ArrayAt, ObjectAt, MembersAt, MemberAt, StringAt, CharsAt, NumberAt;
    var k := WsEnd(s, WsEnd(s, p.next) + 1);
    WsEndAgain(s, WsEnd(s, p.next) + 1);
    assert ValueAt(s, k, stod) == Err(InvalidValue);
  }

  /** A comma must be followed by another member: an object such as
      {"a":1,} is rejected for want of a key. */
  lemma ObjectTrailingComma(s: string, i: nat, members: seq<Member>, stod: Stod, m: Parsed<Member>)
    requires i <= |s| && MemberAt(s, i, stod) == Ok(m)
    requires CharAt(s, WsEnd(s, m.next)) == ',' && CharAt(s, WsEnd(s, WsEnd(s, m.next) + 1)) == '}'
    ensures MembersAt(s, i, members, stod) == Err(KeyExpected)
  {
    var k := WsEnd(s, WsEnd(s, m.next) + 1);
    assert MemberAt(s, k, stod) == Err(KeyExpected);
  }

  /** An object's first member must start with a string key. */
  lemma ObjectKeyFirst(s: string, i: nat, stod: Stod)
    requires i <= |s| && CharAt(s, i) == '{'
    requires var c := CharAt(s, WsEnd(s, i + 1)); c != '}' && c != '"'
    ensures ObjectAt(s, i, stod) == Err(KeyExpected)
  {
    assert MemberAt(s, WsEnd(s, i + 1), stod) == Err(KeyExpected);
  }

  /** consume(kw) succeeds exactly when the next |kw| characters spell kw. */
  lemma AtMatches(s: string, i: nat, t: string)
    ensures At(s, i, t) <==> i + |t| <= |s| && s[i..i + |t|] == t
  {
    if i + |t| <= |s| && s[i..i + |t|] == t {
      AtSlice(s, i, i + |t|);
    }
    if At(s, i, t) {
      forall k | 0 <= k < |t|
        ensures s[i..i + |t|][k] == t[k]
      {
        AtIndex(s, i, t, k);
      }
    }
  }

  // ----- the parser object -----

  /** What a parse method returned, r, and where it left the cursor, pos,
      agree with the specification's outcome: the same value and the
      position just after it, or the same error. */
  predicate Agrees<T(==)>(r: Result<T>, spec: Result<Parsed<T>>, pos: nat) {
    match spec
    case Ok(p) => r == Ok(p.value) && pos == p.next
    case Err(e) => r == Err(e)
  }

  /** A scan that reports only an error agrees with the specification's
      outcome: no error and the cursor at the end it names, or the same
      error. */
  predicate Scanned(err: Option<Error>, spec: Result<nat>, pos: nat) {
    match spec
    case Ok(j) => err == None && pos == j
    case Err(e) => err == Some(e)
  }

  /** JsonParser: the text it reads, the conversion it applies to number
      texts, and the cursor pos_.  Each parse method starts at the cursor,
      moves it forward over what it reads, and returns what the matching
      specification function computes; a thrown exception is an Err. */
  class JsonParser {
    const text: string
    const stod: Stod
    var pos: nat

    ghost predicate Valid()
      reads this
    {
      pos <= |text|
    }

    constructor (text: string, stod: Stod)
      ensures Valid() && this.text == text && this.stod == stod && pos == 0
    {
      this.text := text;
      this.stod := stod;
      pos := 0;
    }

    predicate Eof()
      reads this
    {
      pos >= |text|
    }

    /** peek(): the character under the cursor, '\0' at the end. */
    function Peek(): (c: char)
      reads this
      ensures c == CharAt(text, pos)
    {
      if Eof() then '\0' else text[pos]
    }

    /** get(): the character under the cursor, stepping past it unless the
        cursor is at the end. */
    method Get() returns (c: char)
      requires Valid()
      modifies this
      ensures Valid()
      ensures c == CharAt(text, old(pos))
      ensures pos == if old(pos) < |text| then old(pos) + 1 else old(pos)
    {
      if Eof() {
        c := '\0';
      } else {
        c := text[pos];
        pos := pos + 1;
      }
    }

    method SkipWs()
      requires Valid()
      modifies this
      ensures Valid() && pos == WsEnd(text, old(pos))
    {
      while !Eof() && IsSpace(text[pos])
        invariant old(pos) <= pos <= |text|
        invariant WsEnd(text, pos) == WsEnd(text, old(pos))
        decreases |text| - pos
      {
        pos := pos + 1;
      }
    }

    /** expect(c): get() must return c; false stands for the thrown
        "unexpected token". */
    method Expect(c: char) returns (ok: bool)
      requires Valid()
      modifies this
      ensures Valid()
      ensures ok <==> CharAt(text, old(pos)) == c
      ensures pos == if old(pos) < |text| then old(pos) + 1 else old(pos)
    {
      var got := Get();
      ok := got == c;
    }

    /** consume(kw): step over kw when the text continues with it. */
    method Consume(kw: string) returns (ok: bool)
      requires Valid()
      modifies this
      ensures Valid()
      ensures ok == At(text, old(pos), kw)
      ensures pos == if ok then old(pos) + |kw| else old(pos)
    {
      AtMatches(text, pos, kw);
      if pos + |kw| <= |text| && text[pos..pos + |kw|] == kw {
        pos := pos + |kw|;
        ok := true;
      } else {
        ok := false;
      }
    }

    method ParseValue() returns (r: Result<JsonValue>)
      requires Valid()
      modifies this
      ensures Valid() && old(pos) <= pos
      ensures Agrees(r, ValueAt(text, old(pos), stod), pos)
      decreases |text| - pos, 1
    {
      hide ArrayAt, ElementsAt, ObjectAt, MembersAt, MemberAt, StringAt, CharsAt, NumberAt;
      SkipWs();
      var c := Peek();
      if c == '{' {
        r := ParseObject();
        return;
      }
      if c == '[' {
        r := ParseArray();
        return;
      }
      if c == '"' {
        var t := ParseString();
        if t.Err? {
          return Err(t.error);
        }
        return Ok(String(t.value));
      }
      if c == '-' || IsDigit(c) {
        r := ParseNumber();
        return;
      }
      var ok := Consume("true");
      if ok {
        return Ok(Bool(true));
      }
      ok := Consume("false");
      if ok {
        return Ok(Bool(false));
      }
      ok := Consume("null");
      if ok {
        return Ok(Null);
      }
      return Err(InvalidValue);
    }

    method ParseString() returns (r: Result<string>)
      requires Valid()
      modifies this
      ensures Valid() && old(pos) <= pos
      ensures Agrees(r, StringAt(text, old(pos)), pos)
    {
      hide ValueAt, ArrayAt, ElementsAt, ObjectAt, MembersAt, MemberAt, NumberAt;
      var ok := Expect('"');
      if !ok {
        return Err(UnexpectedToken);
      }
      var out := "";
      while !Eof()
        invariant old(pos) < pos <= |text|
        invariant StringAt(text, old(pos)) == CharsAt(text, pos, out)
        decreases |text| - pos
      {
        var c := Get();
        if c == '"' {
          return Ok(out);
        }
        if c == '\\' {
          if Eof() {
            return Err(InvalidEscape);
          }
          var e := Get();
          var d := Unescape(e);
          if d.None? {
            return Err(UnsupportedEscape);
          }
          out := out + [d.value];
        } else {
          out := out + [c];
        }
      }
      return Err(UnterminatedString);
    }

    /** The integer part of parse_number: a lone 0, or a non-zero digit
        and the digits after it.  None when the scan succeeds. */
    method ScanInteger() returns (err: Option<Error>)
      requires Valid()
      modifies this
      ensures Valid() && old(pos) <= pos
      ensures Scanned(err, IntegerEnd(text, old(pos)), pos)
    {
      if Peek() == '0' {
        pos := pos + 1;
        return None;
      }
      if !('1' <= Peek() <= '9') {
        return Some(InvalidNumber);
      }
      ghost var a := pos;
      while IsDigit(Peek())
        invariant a <= pos <= |text|
        invariant DigitsEnd(text, pos) == DigitsEnd(text, a)
        decreases |text| - pos
      {
        pos := pos + 1;
      }
      return None;
    }

    /** The optional fraction of parse_number: a point and at least one
        digit. */
    method ScanFraction() returns (err: Option<Error>)
      requires Valid()
      modifies this
      ensures Valid() && old(pos) <= pos
      ensures Scanned(err, FractionEnd(text, old(pos)), pos)
    {
      if Peek() != '.' {
        return None;
      }
      pos := pos + 1;
      if !IsDigit(Peek()) {
        return Some(InvalidFraction);
      }
      ghost var b := pos;
      while IsDigit(Peek())
        invariant b <= pos <= |text|
        invariant DigitsEnd(text, pos) == DigitsEnd(text, b)
        decreases |text| - pos
      {
        pos := pos + 1;
      }
      return None;
    }

    /** The optional exponent of parse_number: e or E, an optional sign and
        at least one digit. */
    method ScanExponent() returns (err: Option<Error>)
      requires Valid()
      modifies this
      ensures Valid() && old(pos) <= pos
      ensures Scanned(err, ExponentEnd(text, old(pos)), pos)
    {
      if Peek() != 'e' && Peek() != 'E' {
        return None;
      }
      pos := pos + 1;
      if Peek() == '+' || Peek() == '-' {
        pos := pos + 1;
      }
      if !IsDigit(Peek()) {
        return Some(InvalidExponent);
      }
      ghost var d := pos;
      while IsDigit(Peek())
        invariant d <= pos <= |text|
        invariant DigitsEnd(text, pos) == DigitsEnd(text, d)
        decreases |text| - pos
      {
        pos := pos + 1;
      }
      return None;
    }

    method ParseNumber() returns (r: Result<JsonValue>)
      requires Valid()
      modifies this
      ensures Valid() && old(pos) <= pos
      ensures Agrees(r, NumberAt(text, old(pos), stod), pos)
    {
      var start := pos;
      if Peek() == '-' {
        pos := pos + 1;
      }
      var err := ScanInteger();
      if err.Some? {
        return Err(err.value);
      }
      err := ScanFraction();
      if err.Some? {
        return Err(err.value);
      }
      err := ScanExponent();
      if err.Some? {
        return Err(err.value);
      }
      var x := stod(text[start..pos]);
      if x.None? {
        return Err(OutOfRange);
      }
      return Ok(Number(x.value));
    }

    method ParseArray() returns (r: Result<JsonValue>)
      requires Valid()
      modifies this
      ensures Valid() && old(pos) <= pos
      ensures Agrees(r, ArrayAt(text, old(pos), stod), pos)
      decreases |text| - pos, 0
    {
      hide ValueAt, ObjectAt, MembersAt, MemberAt, StringAt, CharsAt, NumberAt;
      var ok := Expect('[');
      if !ok {
        return Err(UnexpectedToken);
      }
      SkipWs();
      if Peek() == ']' {
        var _ := Get();
        return Ok(Array([]));
      }
      var items: seq<JsonValue> := [];
      while true
        invariant old(pos) < pos <= |text|
        invariant ArrayAt(text, old(pos), stod) == ElementsAt(text, pos, items, stod)
        decreases |text| - pos
      {
        var v := ParseValue();
        if v.Err? {
          return Err(v.error);
        }
        items := items + [v.value];
        SkipWs();
        if Peek() == ']' {
          var _ := Get();
          return Ok(Array(items));
        }
        ok := Expect(',');
        if !ok {
          return Err(UnexpectedToken);
        }
        SkipWs();
      }
    }

    /** The body of parse_object's loop up to the value: the key check,
        the key, white space, the colon and the value. */
    method ParseMember() returns (r: Result<Member>)
      requires Valid()
      modifies this
      ensures Valid() && old(pos) <= pos
      ensures Agrees(r, MemberAt(text, old(pos), stod), pos)
      decreases |text| - pos, 1
    {
      hide ValueAt, ArrayAt, ElementsAt, ObjectAt, MembersAt, StringAt, CharsAt, NumberAt, WsEnd;
      if Peek() != '"' {
        return Err(KeyExpected);
      }
      var key := ParseString();
      if key.Err? {
        return Err(key.error);
      }
      SkipWs();
      var ok := Expect(':');
      if !ok {
        return Err(UnexpectedToken);
      }
      var value := ParseValue();
      if value.Err? {
        return Err(value.error);
      }
      return Ok(Member(key.value, value.value));
    }

    method ParseObject() returns (r: Result<JsonValue>)
      requires Valid()
      modifies this
      ensures Valid() && old(pos) <= pos
      ensures Agrees(r, ObjectAt(text, old(pos), stod), pos)
      decreases |text| - pos, 0
    {
      hide ValueAt, ArrayAt, ElementsAt, MemberAt, StringAt, CharsAt, NumberAt, WsEnd;
      var ok := Expect('{');
      if !ok {
        return Err(UnexpectedToken);
      }
      SkipWs();
      if Peek() == '}' {
        var _ := Get();
        return Ok(Object([]));
      }
      var members: seq<Member> := [];
      while true
        invariant old(pos) < pos <= |text|
        invariant ObjectAt(text, old(pos), stod) == MembersAt(text, pos, members, stod)
        decreases |text| - pos
      {
        var m := ParseMember();
        if m.Err? {
          return Err(m.error);
        }
        members := members + [m.value];
        SkipWs();
        if Peek() == '}' {
          var _ := Get();
          return Ok(Object(members));
        }
        ok := Expect(',');
        if !ok {
          return Err(UnexpectedToken);
        }
        SkipWs();
      }
    }

    /** parse(): one value between runs of white space and nothing else. */
    method Parse() returns (r: Result<JsonValue>)
      requires Valid() && pos == 0
      modifies this
      ensures r == Document(text, stod)
    {
      SkipWs();
      var v := ParseValue();
      if v.Err? {
        return Err(v.error);
      }
      SkipWs();
      if !Eof() {
        return Err(TrailingCharacters);
      }
      return v;
    }
  }

  /** Parsing a whole text: a fresh JsonParser over it, then parse(). */
  method ParseText(text: string, stod: Stod) returns (r: Result<JsonValue>)
    ensures r == Document(text, stod)
  {
    var parser := new JsonParser(text, stod);
    r := parser.Parse();
  }
}
