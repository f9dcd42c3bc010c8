/**
  The hero banner (Hero.tsx): the call-to-action scroll, the typewriter animation cycling through
  ten "Hello World" snippets, the floating snippets, and the small tokenizer that colours the
  typed prefix.
*/
module Hero {
  import opened Wrappers
  import Layout

  /** The `texts` array of the animated background. */
  const Texts: seq<string> := [
    "Hello World",
    "console.log('Hello')",
    "print('Hello World')",
    "System.out.println('Hello')",
    "echo 'Hello World'",
    "printf('Hello World')",
    "cout << 'Hello World'",
    "println('Hello World')",
    "alert('Hello World')",
    "document.write('Hello')"
  ]

  /**
    `scrollToSection`: the vertical position to scroll to when the section exists (its
    `offsetTop` is given), and no scroll at all when it does not.
  */
  function ScrollToSection(sectionOffsetTop: Option<int>): (top: Option<nat>)
    ensures top.None? <==> sectionOffsetTop.None?
    ensures top.Some? ==> top.value == Layout.ScrollTop(sectionOffsetTop.value)
  {
    match sectionOffsetTop
    case None => None
    case Some(offsetTop) => Some(Layout.ScrollTop(offsetTop))
  }

  /** The `i`th floating snippet shows `texts[(currentText + i) % texts.length]`, always an index in range. */
  function FloatingTextIndex(currentText: nat, i: nat): (k: nat)
    ensures k < |Texts|
    ensures (k - currentText - i) % |Texts| == 0
  {
    (currentText + i) % |Texts|
  }

  /** The typewriter's three state variables. */
  class Typewriter {
    var currentText: nat
    var currentChar: nat
    var isDeleting: bool

    /** The text index is in range and the typed prefix is no longer than its text. */
    ghost predicate Valid()
      reads this
    {
      currentText < |Texts| && currentChar <= |Texts[currentText]|
    }

    constructor ()
      ensures Valid() && currentText == 0 && currentChar == 0 && !isDeleting
    {
      currentText, currentChar, isDeleting := 0, 0, false;
    }

    /**
      One firing of the timer the effect schedules: type one more character, schedule the pause
      at a fully typed text (`pauseScheduled`), delete one character, or move on to the next text.
    */
    method Tick() returns (pauseScheduled: bool)
      requires Valid()
      modifies this
      ensures Valid()
      ensures !old(isDeleting) && old(currentChar) < |Texts[old(currentText)]| ==>
        currentChar == old(currentChar) + 1 && currentText == old(currentText) && !isDeleting && !pauseScheduled
      ensures !old(isDeleting) && old(currentChar) == |Texts[old(currentText)]| ==>
        currentChar == old(currentChar) && currentText == old(currentText) && !isDeleting && pauseScheduled
      ensures old(isDeleting) && old(currentChar) > 0 ==>
        currentChar == old(currentChar) - 1 && currentText == old(currentText) && isDeleting && !pauseScheduled
      ensures old(isDeleting) && old(currentChar) == 0 ==>
        currentChar == 0 && currentText == (old(currentText) + 1) % |Texts| && !isDeleting && !pauseScheduled
    {
      pauseScheduled := false;
      if !isDeleting && currentChar < |Texts[currentText]| {
        currentChar := currentChar + 1;
      } else if !isDeleting && currentChar == |Texts[currentText]| {
        pauseScheduled := true;
      } else if isDeleting && currentChar > 0 {
        currentChar := currentChar - 1;
      } else if isDeleting && currentChar == 0 {
        isDeleting := false;
        currentText := (currentText + 1) % |Texts|;
      }
    }

    /** The pause timer fires: deletion starts; nothing else changes. */
    method EndPause()
      requires Valid()
      modifies this
      ensures Valid()
      ensures isDeleting && currentText == old(currentText) && currentChar == old(currentChar)
    {
      isDeleting := true;
    }
  }

  /** The `type` of a highlighted part. */
  datatype TokenKind = FunctionName | Punctuation | StringLiteral | Operator | PlainText

  datatype Part = Part(text: string, kind: TokenKind)

  /** The function names recognised by `parseCode`, in the order its selection chain tries them. */
  const FunctionNames: seq<string> := [
    "console.log", "System.out.println", "document.write", "print", "println",
    "alert", "echo", "printf", "cout"
  ]

  /** `text.startsWith(p, i)` for a position inside the text. */
  predicate StartsWith(text: string, p: string, i: nat) {
    i + |p| <= |text| && text[i..i + |p|] == p
  }

  /** The first of `names` (from index `from` on) that starts at position `i`. */
  function FirstMatch(names: seq<string>, text: string, i: nat, from: nat): (k: Option<nat>)
    requires from <= |names|
    ensures k.Some? ==> from <= k.value < |names| && StartsWith(text, names[k.value], i)
    ensures k.Some? ==> forall j :: from <= j < k.value ==> !StartsWith(text, names[j], i)
    ensures k.None? ==> forall j :: from <= j < |names| ==> !StartsWith(text, names[j], i)
    decreases |names| - from
  {
    if from == |names| then None
    else if StartsWith(text, names[from], i) then Some(from)
    else FirstMatch(names, text, i, from + 1)
  }

  /**
    The name highlighted at position `i`: the first of `names` that starts there. The tokenizer
    below is stated for any list of names; `parseCode` uses `FunctionNames`.
  */
  function NameAt(names: seq<string>, text: string, i: nat): (name: Option<string>)
    ensures name.Some? ==> name.value in names && StartsWith(text, name.value, i)
  {
    match FirstMatch(names, text, i, 0)
    case None => None
    case Some(k) => Some(names[k])
  }

  /** No name is highlighted exactly when none of the names starts at `i`. */
  lemma NoNameAt(names: seq<string>, text: string, i: nat)
    ensures NameAt(names, text, i).None? <==> forall j :: 0 <= j < |names| ==> !StartsWith(text, names[j], i)
  {
  }

  /**
    Because "print" is tried before "println" and "printf", the longer names are never
    highlighted whole: only their "print" prefix is.
  */
  lemma PrintShadowsLongerNames(text: string, i: nat)
    requires StartsWith(text, "println", i) || StartsWith(text, "printf", i)
    ensures NameAt(FunctionNames, text, i) == Some("print")
  {
    assert text[i] == 'p' by {
      if StartsWith(text, "println", i) { assert text[i..i + 7][0] == text[i]; }
      else { assert text[i..i + 6][0] == text[i]; }
    }
    assert StartsWith(text, "print", i) by {
      if StartsWith(text, "println", i) { assert text[i..i + 5] == text[i..i + 7][..5]; }
      else { assert text[i..i + 5] == text[i..i + 6][..5]; }
    }
    FirstCharDecides(text, FunctionNames[0], i);
    FirstCharDecides(text, FunctionNames[1], i);
    FirstCharDecides(text, FunctionNames[2], i);
  }

  lemma FirstCharDecides(text: string, p: string, i: nat)
    requires p != [] && i < |text| && text[i] != p[0]
    ensures !StartsWith(text, p, i)
  {
  }

  /** No name is empty, so taking a name always moves the scan on. */
  predicate NonEmptyNames(names: seq<string>) {
    forall k :: 0 <= k < |names| ==> names[k] != ""
  }

  function Min(a: nat, b: nat): nat {
    if a <= b then a else b
  }

  /** The text of the parts, joined. */
  function Concat(parts: seq<Part>): string {
    if parts == [] then "" else parts[0].text + Concat(parts[1..])
  }

  /** What the parts of a given kind may hold. */
  predicate WellFormedPart(p: Part, names: seq<string>) {
    && p.text != ""
    && (p.kind == FunctionName ==> exists n :: n in names && p.text <= n)
    && (p.kind == Punctuation ==> p.text in {"(", ")", ";"})
    && (p.kind == Operator ==> p.text in {"<", ">", "=", "+"})
    && (p.kind == StringLiteral ==> p.text[0] in {'\'', '"'})
  }

  /** Where the scan of a string literal body, started at `j`, stops: at `limit` or at the closing quote. */
  function StringEnd(text: string, limit: nat, quote: char, j: nat): (e: nat)
    requires j <= limit <= |text|
    ensures j <= e <= limit
    ensures e < limit ==> text[e] == quote
    decreases limit - j
  {
    if j < limit && text[j] != quote then StringEnd(text, limit, quote, j + 1) else j
  }

  /** The scan passes over no quote: every character before the stop differs from `quote`. */
  lemma {:induction false} StringEndSkipsBody(text: string, limit: nat, quote: char, j: nat)
    requires j <= limit <= |text|
    ensures forall k :: j <= k < StringEnd(text, limit, quote, j) ==> text[k] != quote
    decreases limit - j
  {
    if j < limit && text[j] != quote {
      StringEndSkipsBody(text, limit, quote, j + 1);
    }
  }

  /**
    The string literal opened by the quote at `i`: up to the closing quote, included when it is
    typed, or to the end of the typed text.
  */
  function StringPart(text: string, currentChar: nat, i: nat): (r: (Part, nat))
    requires i < Min(currentChar, |text|) && (text[i] == '\'' || text[i] == '"')
    ensures i < r.1 <= Min(currentChar, |text|)
    ensures r.0.text == text[i..r.1] && r.0.kind == StringLiteral
    ensures r.1 < Min(currentChar, |text|) ==> i + 1 < r.1 && text[r.1 - 1] == text[i]
  {
    var e := StringEnd(text, Min(currentChar, |text|), text[i], i + 1);
    var stop: nat := if e < currentChar && e < |text| && text[e] == text[i] then e + 1 else e;
    (Part(text[i..stop], StringLiteral), stop)
  }

  /** A string part stops at the first closing quote: no character strictly inside it is the opening quote. */
  lemma StringPartStops(text: string, currentChar: nat, i: nat)
    requires i < Min(currentChar, |text|) && (text[i] == '\'' || text[i] == '"')
    ensures var r := StringPart(text, currentChar, i);
      forall k :: i < k < r.1 - 1 ==> text[k] != text[i]
  {
    StringEndSkipsBody(text, Min(currentChar, |text|), text[i], i + 1);
  }

  /**
    The part for the function name `name` found at `i`: the whole name when it is typed, and
    otherwise its typed prefix, which ends the scan (`parseCode` breaks out of its loop).
  */
  function NamePart(text: string, currentChar: nat, i: nat, name: string): (r: (Part, nat))
    requires i < Min(currentChar, |text|) && name != "" && StartsWith(text, name, i)
    ensures i < r.1 <= Min(currentChar, |text|)
    ensures r.0.text == text[i..r.1] && r.0.kind == FunctionName && r.0.text <= name
    ensures i + |name| <= currentChar ==> r.0.text == name
    ensures i + |name| > currentChar ==> r.1 == Min(currentChar, |text|)
  {
    if i + |name| <= currentChar then (Part(name, FunctionName), i + |name|)
    else (Part(name[..currentChar - i], FunctionName), Min(currentChar, |text|))
  }

  /** The part `parseCode` takes at position `i`, and the position after it. */
  function NextPart(names: seq<string>, text: string, currentChar: nat, i: nat): (r: (Part, nat))
    requires NonEmptyNames(names) && i < Min(currentChar, |text|)
    ensures i < r.1 <= Min(currentChar, |text|)
    ensures r.0.text == text[i..r.1]
    ensures WellFormedPart(r.0, names)
  {
    match NameAt(names, text, i)
    case Some(name) => NamePart(text, currentChar, i, name)
    case None =>
      if text[i] == '(' || text[i] == ')' then (Part([text[i]], Punctuation), i + 1)
      else if text[i] == '\'' || text[i] == '"' then StringPart(text, currentChar, i)
      else if text[i] == ';' then (Part(";", Punctuation), i + 1)
      else if text[i] == '<' || text[i] == '>' || text[i] == '=' || text[i] == '+' then
        (Part([text[i]], Operator), i + 1)
      else (Part([text[i]], PlainText), i + 1)
  }

  /** The kind `parseCode` gives a single character that starts neither a function name nor a string. */
  function CharKind(c: char): TokenKind {
    if c == '(' || c == ')' || c == ';' then Punctuation
    else if c == '<' || c == '>' || c == '=' || c == '+' then Operator
    else PlainText
  }

  lemma NextPartName(names: seq<string>, text: string, currentChar: nat, i: nat, name: string)
    requires NonEmptyNames(names) && i < Min(currentChar, |text|) && NameAt(names, text, i) == Some(name)
    ensures name != "" && NextPart(names, text, currentChar, i) == NamePart(text, currentChar, i, name)
  {
  }

  lemma NextPartChar(names: seq<string>, text: string, currentChar: nat, i: nat)
    requires NonEmptyNames(names) && i < Min(currentChar, |text|) && NameAt(names, text, i).None?
    requires text[i] != '\'' && text[i] != '"'
    ensures NextPart(names, text, currentChar, i) == (Part([text[i]], CharKind(text[i])), i + 1)
  {
  }

  lemma NextPartString(names: seq<string>, text: string, currentChar: nat, i: nat)
    requires NonEmptyNames(names) && i < Min(currentChar, |text|) && NameAt(names, text, i).None?
    requires text[i] == '\'' || text[i] == '"'
    ensures NextPart(names, text, currentChar, i) == StringPart(text, currentChar, i)
  {
  }

  /** The parts `parseCode` produces from position `i` on. */
  function TokensFrom(names: seq<string>, text: string, currentChar: nat, i: nat): seq<Part>
    requires NonEmptyNames(names) && i <= Min(currentChar, |text|)
    decreases Min(currentChar, |text|) - i
  {
    if i == Min(currentChar, |text|) then []
    else
      var (p, next) := NextPart(names, text, currentChar, i);
      [p] + TokensFrom(names, text, currentChar, next)
  }

  /** Taking the next part keeps `parts` followed by the parts still to come equal to `all`. */
  lemma TokensStep(names: seq<string>, text: string, currentChar: nat, i: nat, parts: seq<Part>,
                   part: Part, next: nat, all: seq<Part>)
    requires NonEmptyNames(names) && i < Min(currentChar, |text|)
    requires NextPart(names, text, currentChar, i) == (part, next)
    requires parts + TokensFrom(names, text, currentChar, i) == all
    ensures (parts + [part]) + TokensFrom(names, text, currentChar, next) == all
  {
  }

  /** All parts of the code line as far as `currentChar` characters are typed. */
  function Tokens(text: string, currentChar: nat): seq<Part> {
    assert NonEmptyNames(FunctionNames);
    TokensFrom(FunctionNames, text, currentChar, 0)
  }

  /** Joined, the parts from `i` on give back exactly the typed text from `i` on. */
  lemma {:induction false} TokensCover(names: seq<string>, text: string, currentChar: nat, i: nat)
    requires NonEmptyNames(names) && i <= Min(currentChar, |text|)
    ensures Concat(TokensFrom(names, text, currentChar, i)) == text[i..Min(currentChar, |text|)]
    decreases Min(currentChar, |text|) - i
  {
    var limit := Min(currentChar, |text|);
    if i < limit {
      var (p, next) := NextPart(names, text, currentChar, i);
      var rest := TokensFrom(names, text, currentChar, next);
      assert TokensFrom(names, text, currentChar, i) == [p] + rest;
      assert ([p] + rest)[1..] == rest;
      TokensCover(names, text, currentChar, next);
      assert text[i..limit] == text[i..next] + text[next..limit];
    }
  }

  /** Every part is well formed: none is empty, and each kind holds what it should. */
  lemma {:induction false} TokensWellFormed(names: seq<string>, text: string, currentChar: nat, i: nat)
    requires NonEmptyNames(names) && i <= Min(currentChar, |text|)
    ensures forall k :: 0 <= k < |TokensFrom(names, text, currentChar, i)| ==>
      WellFormedPart(TokensFrom(names, text, currentChar, i)[k], names)
    decreases Min(currentChar, |text|) - i
  {
    if i < Min(currentChar, |text|) {
      var (p, next) := NextPart(names, text, currentChar, i);
      TokensWellFormed(names, text, currentChar, next);
      var ts := TokensFrom(names, text, currentChar, i);
      var rest := TokensFrom(names, text, currentChar, next);
      assert ts == [p] + rest;
      forall k | 0 <= k < |ts| ensures WellFormedPart(ts[k], names) {
        if k == 0 { assert ts[k] == p; } else { assert ts[k] == rest[k - 1]; }
      }
    }
  }

  /**
    What `parseCode` promises its caller: joined, the parts show exactly the typed prefix of the
    line, no part is empty, and nothing is shown before the first character is typed.
  */
  lemma TokensReassemble(text: string, currentChar: nat)
    ensures Concat(Tokens(text, currentChar)) == text[..Min(currentChar, |text|)]
    ensures forall k :: 0 <= k < |Tokens(text, currentChar)| ==> WellFormedPart(Tokens(text, currentChar)[k], FunctionNames)
    ensures currentChar == 0 ==> Tokens(text, currentChar) == []
  {
    assert NonEmptyNames(FunctionNames);
    TokensCover(FunctionNames, text, currentChar, 0);
    TokensWellFormed(FunctionNames, text, currentChar, 0);
    assert text[0..Min(currentChar, |text|)] == text[..Min(currentChar, |text|)];
  }

  /**
    The string branch of `parseCode`: from the opening quote at `i`, collect characters up to
    the closing quote or the end of the typed text, and take the closing quote when it is typed.
  */
  method ScanString(text: string, currentChar: nat, i: nat) returns (part: Part, next: nat)
    requires i < Min(currentChar, |text|) && (text[i] == '\'' || text[i] == '"')
    ensures (part, next) == StringPart(text, currentChar, i)
  {
    var limit := Min(currentChar, |text|);
    var quote := text[i];
    var stringContent := "";
    next := i + 1;
    while next < limit && text[next] != quote
      invariant i < next <= limit
      invariant StringEnd(text, limit, quote, next) == StringEnd(text, limit, quote, i + 1)
      invariant [quote] + stringContent == text[i..next]
      decreases limit - next
    {
      assert text[i..next + 1] == text[i..next] + [text[next]];
      stringContent := stringContent + [text[next]];
      next := next + 1;
    }
    assert StringEnd(text, limit, quote, next) == next;
    // past the end of the text, `text[next]` is `undefined`, which is no quote
    if next < currentChar && next < |text| && text[next] == quote {
      assert text[i..next + 1] == text[i..next] + [quote];
      stringContent := stringContent + [quote];
      next := next + 1;
    }
    part := Part([quote] + stringContent, StringLiteral);
    assert part.text == text[i..next];
    assert next == StringPart(text, currentChar, i).1;
  }

  /**
    One pass of the loop of `parseCode`: the part at `i` and where the scan goes on. A function
    name cut off by `currentChar` ends the loop (`break`); here its `next` is the end of the typed
    text, which ends the loop just the same.
  */
  method TakePart(names: seq<string>, text: string, currentChar: nat, i: nat) returns (part: Part, next: nat)
    requires NonEmptyNames(names) && i < Min(currentChar, |text|)
    ensures (part, next) == NextPart(names, text, currentChar, i)
  {
    var funcName := NameAt(names, text, i);
    if funcName.Some? {
      var name := funcName.value;
      NextPartName(names, text, currentChar, i, name);
      if i + |name| <= currentChar {
        part := Part(name, FunctionName);
        next := i + |name|;
      } else {
        part := Part(name[..currentChar - i], FunctionName);
        next := Min(currentChar, |text|);
      }
    } else if text[i] == '(' || text[i] == ')' {
      NextPartChar(names, text, currentChar, i);
      part := Part([text[i]], Punctuation);
      next := i + 1;
    } else if text[i] == '\'' || text[i] == '"' {
      NextPartString(names, text, currentChar, i);
      part, next := ScanString(text, currentChar, i);
    } else if text[i] == ';' {
      NextPartChar(names, text, currentChar, i);
      part := Part(";", Punctuation);
      next := i + 1;
    } else if text[i] == '<' || text[i] == '>' || text[i] == '=' || text[i] == '+' {
      NextPartChar(names, text, currentChar, i);
      part := Part([text[i]], Operator);
      next := i + 1;
    } else {
      NextPartChar(names, text, currentChar, i);
      part := Part([text[i]], PlainText);
      next := i + 1;
    }
  }

  /** `parseCode`: split the first `currentChar` characters of `text` into highlighted parts. */
  method ParseCode(text: string, currentChar: nat) returns (parts: seq<Part>)
    ensures parts == Tokens(text, currentChar)
  {
    assert NonEmptyNames(FunctionNames);
    var limit := Min(currentChar, |text|);
    ghost var all := Tokens(text, currentChar);
    parts := [];
    var i := 0;
    while i < limit
      invariant 0 <= i <= limit
      invariant parts + TokensFrom(FunctionNames, text, currentChar, i) == all
      decreases limit - i
    {
      var part, next := TakePart(FunctionNames, text, currentChar, i);
      TokensStep(FunctionNames, text, currentChar, i, parts, part, next, all);
      parts := parts + [part];
      i := next;
    }
  }
}
