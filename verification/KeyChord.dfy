/**
  Key chords as text: the parser of strings such as "ctrl+x ctrl+k" and the canonical printer.
  Whitespace is Unicode white space; case is folded for ASCII letters only.
*/
module KeyChord {
  import opened Prelude
  import opened Text

  datatype Combo = Combo(ctrl: bool, shift: bool, alt: bool, meta: bool, superKey: bool, key: string)

  datatype ParseError =
    | EmptyChord
    | EmptyCombo
    | EmptyToken(combo: string)
    | MultipleBaseKeys(combo: string)
    | MissingBaseKey(combo: string)

  /** The characters Rust's `char::is_whitespace` accepts. */
  predicate Blank(c: char) {
    var n := c as int;
    || 0x9 <= n <= 0xD || n == 0x20 || n == 0x85 || n == 0xA0 || n == 0x1680 || 0x2000 <= n <= 0x200A
    || n == 0x2028 || n == 0x2029 || n == 0x202F || n == 0x205F || n == 0x3000
  }

  function LowerChar(c: char): char {
    if 'A' <= c <= 'Z' then c - 'A' + 'a' else c
  }

  function Lower(s: string): string {
    seq(|s|, i requires 0 <= i < |s| => LowerChar(s[i]))
  }

  // ---------------------------------------------------------------- tokens

  datatype Modifier = Ctrl | Alt | Shift | Meta | Super

  /** What a token stands for; the base keys carry their normal name. */
  datatype Lexeme = Nothing | Mod(modifier: Modifier) | Key(name: string)

  function NormalizeKey(raw: string): string {
    if raw == "return" || raw == "enter" then "enter"
    else if raw == "esc" || raw == "escape" then "escape"
    else if raw == "del" || raw == "delete" then "delete"
    else if raw == "bs" || raw == "backspace" then "backspace"
    else if raw == "tab" then "tab"
    else if raw == "space" || raw == " " then "space"
    else if raw == "pgup" then "pageup"
    else if raw == "pgdn" then "pagedown"
    else raw
  }

  function Lex(token: string): Lexeme {
    if token == "" then Nothing
    else if token == "ctrl" || token == "control" then Mod(Ctrl)
    else if token == "shift" then Mod(Shift)
    else if token == "alt" || token == "option" || token == "opt" then Mod(Alt)
    else if token == "meta" then Mod(Meta)
    else if token == "cmd" || token == "command" || token == "super" || token == "win" then Mod(Super)
    else Key(NormalizeKey(token))
  }

  function TokenOf(piece: string): string {
    Lower(Trim(piece, Blank))
  }

  /** What the tokens read so far have set. */
  datatype Partial = Partial(mods: set<Modifier>, key: Option<string>)

  datatype TokenError = Empty | SecondBase

  function Add(p: Partial, x: Lexeme): Result<Partial, TokenError> {
    match x
    case Nothing => Err(Empty)
    case Mod(m) => Ok(p.(mods := p.mods + {m}))
    case Key(name) => if p.key.Some? then Err(SecondBase) else Ok(p.(key := Some(name)))
  }

  /** The first `n` tokens, up to the first error. */
  function Fold(xs: seq<Lexeme>, n: nat): Result<Partial, TokenError>
    requires n <= |xs|
  {
    if n == 0 then Ok(Partial({}, None))
    else match Fold(xs, n - 1)
         case Err(e) => Err(e)
         case Ok(p) => Add(p, xs[n - 1])
  }

  function Lexemes(pieces: seq<string>): seq<Lexeme> {
    seq(|pieces|, i requires 0 <= i < |pieces| => Lex(TokenOf(pieces[i])))
  }

  function ComboOf(mods: set<Modifier>, key: string): Combo {
    Combo(Ctrl in mods, Shift in mods, Alt in mods, Meta in mods, Super in mods, key)
  }

  function FinishCombo(r: Result<Partial, TokenError>, trimmed: string): Result<Combo, ParseError> {
    match r
    case Err(Empty) => Err(EmptyToken(trimmed))
    case Err(SecondBase) => Err(MultipleBaseKeys(trimmed))
    case Ok(p) => if p.key.None? then Err(MissingBaseKey(trimmed)) else Ok(ComboOf(p.mods, p.key.value))
  }

  function ReadAll(xs: seq<Lexeme>, trimmed: string): Result<Combo, ParseError> {
    FinishCombo(Fold(xs, |xs|), trimmed)
  }

  function ParsedCombo(input: string): Result<Combo, ParseError> {
    var trimmed := Trim(input, Blank);
    if trimmed == "" then Err(EmptyCombo) else ReadAll(Lexemes(Split(trimmed, '+')), trimmed)
  }

  function SpaceCombo(): Combo {
    Combo(false, false, false, false, false, "space")
  }

  function ParsedChord(input: string): Result<seq<Combo>, ParseError> {
    if input == " " then Ok([SpaceCombo()])
    else
      var trimmed := Trim(input, Blank);
      if trimmed == "" then Err(EmptyChord) else Traverse(Words(trimmed, Blank), ParsedCombo)
  }

  // ---------------------------------------------------------------- when a combo parses

  /** Every token is something, and no two are base keys. */
  ghost predicate Readable(xs: seq<Lexeme>, n: nat)
    requires n <= |xs|
  {
    && (forall i :: 0 <= i < n ==> !xs[i].Nothing?)
    && (forall i, j :: 0 <= i < j < n ==> !(xs[i].Key? && xs[j].Key?))
  }

  /** Reading succeeds exactly on readable tokens, and then collects the modifiers and the base key. */
  lemma {:induction false} FoldMeaning(xs: seq<Lexeme>, n: nat)
    requires n <= |xs|
    ensures Fold(xs, n).Ok? <==> Readable(xs, n)
    ensures Fold(xs, n).Ok? ==>
              var p := Fold(xs, n).value;
              && (forall m :: m in p.mods <==> Mod(m) in xs[..n])
              && (forall name :: p.key == Some(name) <==> Key(name) in xs[..n])
  {
    if n > 0 {
      FoldMeaning(xs, n - 1);
      assert xs[..n] == xs[..n - 1] + [xs[n - 1]];
      if Fold(xs, n).Ok? && xs[n - 1].Key? {
        forall i | 0 <= i < n - 1
          ensures !xs[i].Key?
        {
          assert xs[i] in xs[..n - 1];
        }
      }
    }
  }

  /** A combo is accepted exactly when it is not blank, no token is blank and one token is a base key. */
  lemma ComboParsesIff(input: string)
    ensures var trimmed := Trim(input, Blank);
            var xs := Lexemes(Split(trimmed, '+'));
            ParsedCombo(input).Ok? <==>
              trimmed != "" && Readable(xs, |xs|) && exists i :: 0 <= i < |xs| && xs[i].Key?
  {
    var xs := Lexemes(Split(Trim(input, Blank), '+'));
    FoldMeaning(xs, |xs|);
    assert xs[..|xs|] == xs;
    if i :| 0 <= i < |xs| && xs[i].Key? {
      assert Key(xs[i].name) in xs;
    }
  }

  // ---------------------------------------------------------------- printing

  function DisplayName(key: string): string {
    if key == "escape" then "Esc"
    else if key == "space" || key == " " then "Space"
    else if key == "tab" then "tab"
    else if key == "enter" then "Enter"
    else if key == "backspace" then "Backspace"
    else if key == "delete" then "Delete"
    else if key == "up" then UP
    else if key == "down" then DOWN
    else if key == "left" then LEFT
    else if key == "right" then RIGHT
    else if key == "pageup" then "PageUp"
    else if key == "pagedown" then "PageDown"
    else if key == "home" then "Home"
    else if key == "end" then "End"
    else key
  }

  const UP: string := "\U{2191}"
  const DOWN: string := "\U{2193}"
  const LEFT: string := "\U{2190}"
  const RIGHT: string := "\U{2192}"

  function NameOf(m: Modifier): string {
    match m
    case Ctrl => "ctrl"
    case Alt => "alt"
    case Shift => "shift"
    case Meta => "meta"
    case Super => "cmd"
  }

  function When(b: bool, m: Modifier): seq<Modifier> {
    if b then [m] else []
  }

  /** The modifiers of a combo in printing order. */
  function Held(c: Combo): seq<Modifier> {
    When(c.ctrl, Ctrl) + When(c.alt, Alt) + When(c.shift, Shift) + When(c.meta, Meta) + When(c.superKey, Super)
  }

  function Names(ms: seq<Modifier>): seq<string> {
    seq(|ms|, i requires 0 <= i < |ms| => NameOf(ms[i]))
  }

  function Pieces(c: Combo): seq<string> {
    Names(Held(c)) + [DisplayName(c.key)]
  }

  function PrintedCombo(c: Combo): string {
    Join(Pieces(c), '+')
  }

  function PrintedCombos(cs: seq<Combo>): seq<string> {
    seq(|cs|, i requires 0 <= i < |cs| => PrintedCombo(cs[i]))
  }

  function PrintedChord(cs: seq<Combo>): string {
    Join(PrintedCombos(cs), ' ')
  }

  // ---------------------------------------------------------------- canonical keys

  /** No separator, no white space, no upper case. */
  predicate PlainChar(c: char) {
    c != '+' && !Blank(c) && LowerChar(c) == c
  }

  ghost predicate Plain(k: string) {
    |k| > 0 && forall i :: 0 <= i < |k| ==> PlainChar(k[i])
  }

  ghost predicate CanonicalKey(k: string) {
    Plain(k) && Lex(k) == Key(k)
  }

  /** What the printed name of a key reads back as: arrows come back as their glyphs. */
  function Glyph(k: string): string {
    if k == "up" then UP else if k == "down" then DOWN else if k == "left" then LEFT else if k == "right" then RIGHT
    else k
  }

  predicate IsArrow(k: string) {
    k == "up" || k == "down" || k == "left" || k == "right"
  }

  lemma PlainFacts(k: string)
    requires Plain(k)
    ensures k != "" && '+' !in k && Solid(k, Blank) && Lower(k) == k
  {
    assert forall i :: 0 <= i < |k| ==> PlainChar(k[i]);
  }

  lemma EnterIsCanonical()
    ensures CanonicalKey("enter")
  {
  }

  lemma EscapeIsCanonical()
    ensures CanonicalKey("escape")
  {
  }

  lemma DeleteIsCanonical()
    ensures CanonicalKey("delete")
  {
  }

  lemma BackspaceIsCanonical()
    ensures CanonicalKey("backspace")
  {
  }

  lemma TabIsCanonical()
    ensures CanonicalKey("tab")
  {
  }

  lemma SpaceIsCanonical()
    ensures CanonicalKey("space")
  {
  }

  lemma PageUpIsCanonical()
    ensures CanonicalKey("pageup")
  {
  }

  lemma PageDownIsCanonical()
    ensures CanonicalKey("pagedown")
  {
  }

  predicate IsNamed(k: string) {
    || k == "enter"
    || k == "escape"
    || k == "delete"
    || k == "backspace"
    || k == "tab"
    || k == "space"
    || k == "pageup"
    || k == "pagedown"
  }

  lemma NamedIsCanonical(k: string)
    requires IsNamed(k)
    ensures CanonicalKey(k)
  {
    EnterIsCanonical();
    EscapeIsCanonical();
    DeleteIsCanonical();
    BackspaceIsCanonical();
    TabIsCanonical();
    SpaceIsCanonical();
    PageUpIsCanonical();
    PageDownIsCanonical();
  }

  /** Whatever token a base key was written as, the parser stores a canonical name. */
  lemma LexedIsCanonical(t: string)
    requires Plain(t) && Lex(t).Key?
    ensures CanonicalKey(Lex(t).name)
  {
    if IsNamed(NormalizeKey(t)) {
      NamedIsCanonical(NormalizeKey(t));
    }
  }

  /** Printing key `k` as `d` reads back as the key, or as the glyph of an arrow. */
  ghost predicate Shows(k: string, d: string) {
    d != "" && '+' !in d && Solid(d, Blank) && Lex(Lower(d)) == Key(Glyph(k))
  }

  lemma EscShows()
    ensures Shows("escape", "Esc")
  {
    assert Lower("Esc") == "esc";
  }

  /** A name that differs from its key in case only reads back as the key. */
  lemma CaseShows(k: string, d: string)
    requires CanonicalKey(k) && !IsArrow(k) && Lower(d) == k
    ensures Shows(k, d)
  {
    forall i | 0 <= i < |d|
      ensures d[i] != '+' && !Blank(d[i])
    {
      assert PlainChar(k[i]) && LowerChar(d[i]) == k[i];
    }
  }

  /** A key of one character is its own canonical name. */
  lemma OneCharIsCanonical(g: string)
    requires |g| == 1 && PlainChar(g[0])
    ensures CanonicalKey(g)
  {
  }

  lemma ArrowShows(k: string)
    requires IsArrow(k)
    ensures CanonicalKey(Glyph(k)) && Shows(k, Glyph(k)) && Glyph(k) != k
    ensures |Glyph(k)| == 1
  {
    OneCharIsCanonical(Glyph(k));
    PlainFacts(Glyph(k));
  }

  lemma DisplayFacts(k: string)
    requires CanonicalKey(k)
    ensures Shows(k, DisplayName(k))
  {
    PlainFacts(k);
    var d := DisplayName(k);
    if IsArrow(k) {
      ArrowShows(k);
    } else if k == "escape" {
      EscShows();
    } else {
      LowerOfDisplay(k);
      CaseShows(k, d);
    }
  }

  lemma LowerOfEditing(k: string)
    requires k == "space" || k == "enter" || k == "backspace" || k == "delete"
    ensures Lower(DisplayName(k)) == k
  {
    assert Lower("Space") == "space" && Lower("Enter") == "enter";
    assert Lower("Backspace") == "backspace" && Lower("Delete") == "delete";
  }

  lemma LowerOfPaging(k: string)
    requires k == "pageup" || k == "pagedown" || k == "home" || k == "end"
    ensures Lower(DisplayName(k)) == k
  {
    assert Lower("PageUp") == "pageup" && Lower("PageDown") == "pagedown";
    assert Lower("Home") == "home" && Lower("End") == "end";
  }

  lemma LowerOfDisplay(k: string)
    requires Lower(k) == k && k != "escape" && k != " " && !IsArrow(k)
    ensures Lower(DisplayName(k)) == k
  {
    if k == "space" || k == "enter" || k == "backspace" || k == "delete" {
      LowerOfEditing(k);
    } else if k == "pageup" || k == "pagedown" || k == "home" || k == "end" {
      LowerOfPaging(k);
    }
  }

  lemma GlyphFacts(k: string)
    requires CanonicalKey(k)
    ensures CanonicalKey(Glyph(k)) && DisplayName(Glyph(k)) == DisplayName(k)
    ensures Glyph(k) == k <==> !IsArrow(k)
  {
    if IsArrow(k) {
      ArrowShows(k);
      OneCharPrintsItself(Glyph(k));
    }
  }

  lemma OneCharPrintsItself(g: string)
    requires |g| == 1 && PlainChar(g[0])
    ensures DisplayName(g) == g
  {
  }

  // ---------------------------------------------------------------- one combo, printed and read back

  ghost predicate Canonical(c: Combo) {
    CanonicalKey(c.key)
  }

  function Reread(c: Combo): Combo {
    c.(key := Glyph(c.key))
  }

  lemma ModifierReads(m: Modifier)
    ensures var n := NameOf(m);
            |n| > 0 && '+' !in n && Solid(n, Blank) && Lex(TokenOf(n)) == Mod(m)
  {
    var n := NameOf(m);
    assert Plain(n);
    PlainFacts(n);
    TrimNothing(n, Blank);
  }

  lemma DisplayReads(k: string)
    requires CanonicalKey(k)
    ensures var d := DisplayName(k);
            |d| > 0 && '+' !in d && Solid(d, Blank) && Lex(TokenOf(d)) == Key(Glyph(k))
  {
    DisplayFacts(k);
    TrimNothing(DisplayName(k), Blank);
  }

  lemma HeldMeaning(c: Combo)
    ensures Ctrl in Held(c) <==> c.ctrl
    ensures Alt in Held(c) <==> c.alt
    ensures Shift in Held(c) <==> c.shift
    ensures Meta in Held(c) <==> c.meta
    ensures Super in Held(c) <==> c.superKey
  {
  }

  /** A piece that survives joining and splitting on plus signs and on white space. */
  ghost predicate Sturdy(p: string) {
    |p| > 0 && '+' !in p && Solid(p, Blank)
  }

  ghost function ModLexemes(ms: seq<Modifier>): seq<Lexeme> {
    seq(|ms|, i requires 0 <= i < |ms| => Mod(ms[i]))
  }

  lemma PieceReads(c: Combo, i: nat)
    requires Canonical(c) && i < |Pieces(c)|
    ensures Sturdy(Pieces(c)[i])
    ensures Lex(TokenOf(Pieces(c)[i])) == if i < |Held(c)| then Mod(Held(c)[i]) else Key(Glyph(c.key))
  {
    if i < |Held(c)| {
      ModifierReads(Held(c)[i]);
    } else {
      DisplayReads(c.key);
    }
  }

  lemma PiecesRead(c: Combo)
    requires Canonical(c)
    ensures forall i :: 0 <= i < |Pieces(c)| ==> Sturdy(Pieces(c)[i])
    ensures Lexemes(Pieces(c)) == ModLexemes(Held(c)) + [Key(Glyph(c.key))]
  {
    forall i | 0 <= i < |Pieces(c)|
      ensures Sturdy(Pieces(c)[i])
      ensures Lexemes(Pieces(c))[i] == (ModLexemes(Held(c)) + [Key(Glyph(c.key))])[i]
    {
      PieceReads(c, i);
    }
  }

  /** Modifiers followed by one key read as just that. */
  lemma ReadModsAndKey(ms: seq<Modifier>, name: string, trimmed: string)
    ensures ReadAll(ModLexemes(ms) + [Key(name)], trimmed) == Ok(ComboOf((set m | m in ms), name))
  {
    var xs := ModLexemes(ms) + [Key(name)];
    FoldMeaning(xs, |xs|);
    assert xs[..|xs|] == xs && xs[|ms|] == Key(name);
    assert Readable(xs, |xs|);
    var p := Fold(xs, |xs|).value;
    forall m
      ensures m in p.mods <==> m in ms
    {
      if m in ms {
        var i :| 0 <= i < |ms| && ms[i] == m;
        assert xs[i] == Mod(m);
      }
      if m in p.mods {
        var i :| 0 <= i < |xs| && xs[i] == Mod(m);
        assert ms[i] == m;
      }
    }
    assert p.mods == set m | m in ms;
    assert Key(name) in xs;
  }

  lemma PrintedIsSturdy(c: Combo)
    requires Canonical(c)
    ensures |PrintedCombo(c)| > 0 && Solid(PrintedCombo(c), Blank)
  {
    PiecesRead(c);
    JoinSolid(Pieces(c), '+', Blank);
    JoinEnds(Pieces(c), '+');
  }

  /** A canonical combo, printed and parsed, comes back with arrows turned to glyphs. */
  lemma ComboRoundTrip(c: Combo)
    requires Canonical(c)
    ensures ParsedCombo(PrintedCombo(c)) == Ok(Reread(c))
  {
    PrintedIsSturdy(c);
    TrimNothing(PrintedCombo(c), Blank);
    PiecesRead(c);
    SplitJoin(Pieces(c), '+');
    ReadModsAndKey(Held(c), Glyph(c.key), PrintedCombo(c));
    HeldMeaning(c);
  }

  // ---------------------------------------------------------------- chords

  function RereadAll(cs: seq<Combo>): seq<Combo> {
    seq(|cs|, i requires 0 <= i < |cs| => Reread(cs[i]))
  }

  ghost predicate CanonicalChord(cs: seq<Combo>) {
    |cs| > 0 && forall i :: 0 <= i < |cs| ==> Canonical(cs[i])
  }

  lemma CombosRoundTrip(cs: seq<Combo>)
    requires CanonicalChord(cs)
    ensures Traverse(PrintedCombos(cs), ParsedCombo) == Ok(RereadAll(cs))
  {
    var words, again := PrintedCombos(cs), RereadAll(cs);
    forall i | 0 <= i < |words|
      ensures ParsedCombo(words[i]) == Ok(again[i])
    {
      ComboRoundTrip(cs[i]);
    }
    OnlyOneInTurn(words, ParsedCombo, Ok(again));
  }

  lemma PrintedWords(cs: seq<Combo>)
    requires CanonicalChord(cs)
    ensures Words(PrintedChord(cs), Blank) == PrintedCombos(cs)
    ensures Trim(PrintedChord(cs), Blank) == PrintedChord(cs) != "" && !Blank(PrintedChord(cs)[0])
  {
    var words := PrintedCombos(cs);
    forall i | 0 <= i < |words|
      ensures |words[i]| > 0 && Solid(words[i], Blank)
    {
      PrintedIsSturdy(cs[i]);
    }
    JoinEnds(words, ' ');
    TrimNothing(PrintedChord(cs), Blank);
    WordsOfJoin(words, ' ', Blank);
  }

  lemma ChordRoundTrip(cs: seq<Combo>)
    requires CanonicalChord(cs)
    ensures ParsedChord(PrintedChord(cs)) == Ok(RereadAll(cs))
  {
    PrintedWords(cs);
    CombosRoundTrip(cs);
  }

  // ---------------------------------------------------------------- what the parser accepts is canonical

  lemma TokenIsPlain(piece: string)
    requires '+' !in piece && Solid(piece, Blank)
    ensures TokenOf(piece) == "" || Plain(TokenOf(piece))
  {
    TrimNothing(piece, Blank);
    var t := TokenOf(piece);
    forall i | 0 <= i < |t|
      ensures PlainChar(t[i])
    {
      assert t[i] == LowerChar(piece[i]) && piece[i] in piece;
    }
  }

  lemma LexemeIsCanonical(word: string, i: nat)
    requires Solid(word, Blank) && i < |Split(word, '+')|
    ensures var x := Lexemes(Split(word, '+'))[i];
            x.Key? ==> CanonicalKey(x.name)
  {
    SplitMeaning(word, '+');
    var piece := Split(word, '+')[i];
    forall k | 0 <= k < |piece|
      ensures !Blank(piece[k])
    {
      assert piece[k] in word;
    }
    TokenIsPlain(piece);
    var t := TokenOf(piece);
    if Lex(t).Key? {
      LexedIsCanonical(t);
    }
  }

  lemma WordIsCanonical(word: string)
    requires Solid(word, Blank) && ParsedCombo(word).Ok?
    ensures Canonical(ParsedCombo(word).value)
  {
    TrimNothing(word, Blank);
    var xs := Lexemes(Split(word, '+'));
    FoldMeaning(xs, |xs|);
    assert xs[..|xs|] == xs;
    var name := Fold(xs, |xs|).value.key.value;
    assert Key(name) in xs;
    var i :| 0 <= i < |xs| && xs[i] == Key(name);
    LexemeIsCanonical(word, i);
  }

  lemma WordsAreCanonical(words: seq<string>)
    requires Traverse(words, ParsedCombo).Ok? && forall i :: 0 <= i < |words| ==> Solid(words[i], Blank)
    ensures var cs := Traverse(words, ParsedCombo).value;
            |cs| == |words| && forall i :: 0 <= i < |cs| ==> Canonical(cs[i])
  {
    var cs := Traverse(words, ParsedCombo).value;
    TraverseInTurn(words, ParsedCombo);
    forall i | 0 <= i < |cs|
      ensures Canonical(cs[i])
    {
      assert ParsedCombo(words[i]) == Ok(cs[i]);
      WordIsCanonical(words[i]);
    }
  }

  lemma AcceptedIsCanonical(input: string)
    requires ParsedChord(input).Ok?
    ensures CanonicalChord(ParsedChord(input).value)
  {
    if input == " " {
    } else {
      var trimmed := Trim(input, Blank);
      var words := Words(trimmed, Blank);
      var left, right := TrimMeaning(input, Blank);
      forall i | 0 <= i < |words|
        ensures Solid(words[i], Blank)
      {
        WordsAreSolid(trimmed, Blank, i);
      }
      WordsAreCanonical(words);
    }
  }

  lemma RereadPrintsSame(cs: seq<Combo>)
    requires CanonicalChord(cs)
    ensures PrintedChord(RereadAll(cs)) == PrintedChord(cs)
  {
    forall i | 0 <= i < |cs|
      ensures PrintedCombos(RereadAll(cs))[i] == PrintedCombos(cs)[i]
    {
      GlyphFacts(cs[i].key);
    }
    assert PrintedCombos(RereadAll(cs)) == PrintedCombos(cs);
  }

  ghost predicate NoArrows(cs: seq<Combo>) {
    forall i :: 0 <= i < |cs| ==> !IsArrow(cs[i].key)
  }

  lemma RereadIsSameIff(cs: seq<Combo>)
    requires CanonicalChord(cs)
    ensures RereadAll(cs) == cs <==> NoArrows(cs)
  {
    forall i | 0 <= i < |cs|
      ensures RereadAll(cs)[i] == cs[i] <==> !IsArrow(cs[i].key)
    {
      GlyphFacts(cs[i].key);
    }
  }

  /** Every accepted string prints to an accepted one; printing that again changes nothing; and the
      chord read back is the same exactly when no base key is a named arrow. */
  lemma CanonicalForm(input: string)
    requires ParsedChord(input).Ok?
    ensures var cs := ParsedChord(input).value;
            && ParsedChord(PrintedChord(cs)) == Ok(RereadAll(cs))
            && PrintedChord(RereadAll(cs)) == PrintedChord(cs)
            && (ParsedChord(PrintedChord(cs)) == Ok(cs) <==> NoArrows(cs))
  {
    AcceptedIsCanonical(input);
    var cs := ParsedChord(input).value;
    ChordRoundTrip(cs);
    RereadPrintsSame(cs);
    RereadIsSameIff(cs);
  }

  /** The up key is accepted but does not come back from its printed form. */
  lemma ArrowDoesNotComeBack()
    ensures var c := Combo(false, false, false, false, false, "up");
            Canonical(c) && ParsedCombo(PrintedCombo(c)).Ok? && ParsedCombo(PrintedCombo(c)) != Ok(c)
  {
    var c := Combo(false, false, false, false, false, "up");
    assert CanonicalKey("up");
    ArrowShows("up");
    ComboRoundTrip(c);
  }

  // ---------------------------------------------------------------- the program

  /** The loop over a combo's tokens. */
  method ReadTokens(xs: seq<Lexeme>, trimmed: string) returns (r: Result<Combo, ParseError>)
    ensures r == ReadAll(xs, trimmed)
  {
    var ctrl, shift, alt, meta, superKey := false, false, false, false, false;
    var key: Option<string> := None;
    ghost var mods: set<Modifier> := {};
    for i := 0 to |xs|
      invariant Fold(xs, i) == Ok(Partial(mods, key))
      invariant ctrl == (Ctrl in mods) && shift == (Shift in mods) && alt == (Alt in mods)
      invariant meta == (Meta in mods) && superKey == (Super in mods)
    {
      match xs[i] {
        case Nothing =>
          ErrorStays(xs, i + 1, |xs|);
          return Err(EmptyToken(trimmed));
        case Mod(m) =>
          mods := mods + {m};
          match m {
            case Ctrl => ctrl := true;
            case Shift => shift := true;
            case Alt => alt := true;
            case Meta => meta := true;
            case Super => superKey := true;
          }
        case Key(name) =>
          if key.Some? {
            ErrorStays(xs, i + 1, |xs|);
            return Err(MultipleBaseKeys(trimmed));
          }
          key := Some(name);
      }
    }
    if key.None? {
      return Err(MissingBaseKey(trimmed));
    }
    return Ok(Combo(ctrl, shift, alt, meta, superKey, key.value));
  }

  method ParseCombo(input: string) returns (r: Result<Combo, ParseError>)
    ensures r == ParsedCombo(input)
  {
    var trimmed := Trim(input, Blank);
    if trimmed == "" {
      return Err(EmptyCombo);
    }
    r := ReadTokens(Lexemes(Split(trimmed, '+')), trimmed);
  }

  /** The first combo that fails decides the error. */
  method ParseChord(input: string) returns (r: Result<seq<Combo>, ParseError>)
    ensures r == ParsedChord(input)
    ensures r.Ok? ==> CanonicalChord(r.value)
  {
    if ParsedChord(input).Ok? {
      AcceptedIsCanonical(input);
    }
    if input == " " {
      return Ok([SpaceCombo()]);
    }
    var trimmed := Trim(input, Blank);
    if trimmed == "" {
      return Err(EmptyChord);
    }
    r := ParseWords(Words(trimmed, Blank));
  }

  method ParseWords(words: seq<string>) returns (r: Result<seq<Combo>, ParseError>)
    ensures r == Traverse(words, ParsedCombo)
  {
    var combos := [];
    for i := 0 to |words|
      invariant |combos| == i && forall k :: 0 <= k < i ==> ParsedCombo(words[k]) == Ok(combos[k])
    {
      var c := ParseCombo(words[i]);
      if c.Err? {
        r := Err(c.error);
        OnlyOneInTurn(words, ParsedCombo, r);
        return;
      }
      combos := combos + [c.value];
    }
    r := Ok(combos);
    OnlyOneInTurn(words, ParsedCombo, r);
  }

  lemma {:induction false} ErrorStays(xs: seq<Lexeme>, i: nat, n: nat)
    requires i <= n <= |xs| && Fold(xs, i).Err?
    ensures Fold(xs, n) == Fold(xs, i)
    decreases n - i
  {
    if i < n {
      ErrorStays(xs, i, n - 1);
    }
  }

  method CollectModifiers(c: Combo) returns (held: seq<Modifier>)
    ensures held == Held(c)
  {
    held := [];
    if c.ctrl {
      held := held + [Ctrl];
    }
    assert held == When(c.ctrl, Ctrl);
    if c.alt {
      held := held + [Alt];
    }
    assert held == When(c.ctrl, Ctrl) + When(c.alt, Alt);
    if c.shift {
      held := held + [Shift];
    }
    assert held == When(c.ctrl, Ctrl) + When(c.alt, Alt) + When(c.shift, Shift);
    if c.meta {
      held := held + [Meta];
    }
    assert held == When(c.ctrl, Ctrl) + When(c.alt, Alt) + When(c.shift, Shift) + When(c.meta, Meta);
    if c.superKey {
      held := held + [Super];
    }
  }

  method KeystrokeToString(c: Combo) returns (out: string)
    ensures out == PrintedCombo(c)
    ensures Canonical(c) ==> ParsedCombo(out) == Ok(Reread(c))
  {
    var held := CollectModifiers(c);
    out := Join(Names(held), '+');
    NamesJoin(held);
    JoinLast(Names(held), DisplayName(c.key), '+');
    if out != "" {
      out := out + "+";
    }
    out := out + DisplayName(c.key);
    if Canonical(c) {
      ComboRoundTrip(c);
    }
  }

  lemma NamesJoin(ms: seq<Modifier>)
    ensures Join(Names(ms), '+') == "" <==> ms == []
  {
    if ms != [] {
      forall i | 0 <= i < |ms|
        ensures |Names(ms)[i]| > 0
      {
        ModifierReads(ms[i]);
      }
      JoinEnds(Names(ms), '+');
    }
  }
}
