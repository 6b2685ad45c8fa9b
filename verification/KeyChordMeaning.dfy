/**
  What key chords mean as text: the names a modifier or a base key may go by, the error an
  unreadable combo or chord gives, and the text a combo prints as.
*/
module KeyChordMeaning {
  import opened Prelude
  import opened Text
  import opened KeyChord

  // ---------------------------------------------------------------- names

  function NamesFor(m: Modifier): seq<string> {
    match m
    case Ctrl => ["ctrl", "control"]
    case Shift => ["shift"]
    case Alt => ["alt", "option", "opt"]
    case Meta => ["meta"]
    case Super => ["cmd", "command", "super", "win"]
  }

  const KEY_NAMES: seq<(string, string)> := [
    ("return", "enter"), ("enter", "enter"), ("esc", "escape"), ("escape", "escape"), ("del", "delete"),
    ("delete", "delete"), ("bs", "backspace"), ("backspace", "backspace"), ("tab", "tab"), ("space", "space"),
    ("pgup", "pageup"), ("pgdn", "pagedown")]

  /** The word names the modifier, in any case. */
  ghost predicate NamesModifier(word: string, m: Modifier) {
    Lower(word) in NamesFor(m)
  }

  /** The word names a key that goes by several names, in any case. */
  ghost predicate NamesKey(word: string, key: string) {
    (Lower(word), key) in KEY_NAMES
  }

  /** The word is the base key: by one of its names, or because it is nothing else. */
  ghost predicate MeansKey(word: string, key: string) {
    || NamesKey(word, key)
    || (Plain(Lower(word)) && key == Lower(word)
        && (forall m :: !NamesModifier(word, m)) && (forall k :: !NamesKey(word, k)))
  }

  lemma CtrlNamesLex(t: string)
    requires t in NamesFor(Ctrl)
    ensures Plain(t) && Lex(t) == Mod(Ctrl)
  {
  }

  lemma AltNamesLex(t: string)
    requires t in NamesFor(Alt)
    ensures Plain(t) && Lex(t) == Mod(Alt)
  {
  }

  lemma SuperNamesLex(t: string)
    requires t in NamesFor(Super)
    ensures Plain(t) && Lex(t) == Mod(Super)
  {
  }

  lemma ModifierNamesLex(t: string, m: Modifier)
    requires t in NamesFor(m)
    ensures Plain(t) && Lex(t) == Mod(m)
  {
    match m
    case Ctrl => CtrlNamesLex(t);
    case Shift =>
    case Alt => AltNamesLex(t);
    case Meta =>
    case Super => SuperNamesLex(t);
  }

  lemma ReturnLexes()
    ensures Plain("return") && Lex("return") == Key("enter")
  {
  }

  lemma EscLexes()
    ensures Plain("esc") && Lex("esc") == Key("escape")
  {
  }

  lemma DelLexes()
    ensures Plain("del") && Lex("del") == Key("delete")
  {
  }

  lemma BsLexes()
    ensures Plain("bs") && Lex("bs") == Key("backspace")
  {
  }

  lemma PgupLexes()
    ensures Plain("pgup") && Lex("pgup") == Key("pageup")
  {
  }

  lemma PgdnLexes()
    ensures Plain("pgdn") && Lex("pgdn") == Key("pagedown")
  {
  }

  lemma KeyNamesLex(t: string, key: string)
    requires (t, key) in KEY_NAMES
    ensures Plain(t) && Lex(t) == Key(key)
  {
    if t == key {
      NamedIsCanonical(t);
    } else {
      ReturnLexes();
      EscLexes();
      DelLexes();
      BsLexes();
      PgupLexes();
      PgdnLexes();
    }
  }

  lemma OthersLex(t: string)
    requires Plain(t) && (forall m :: t !in NamesFor(m)) && (forall k :: (t, k) !in KEY_NAMES)
    ensures Lex(t) == Key(t)
  {
    NotAModifier(t);
    NotRenamed(t);
  }

  lemma NotAModifier(t: string)
    requires t != "" && forall m :: t !in NamesFor(m)
    ensures Lex(t) == Key(NormalizeKey(t))
  {
    assert t !in NamesFor(Ctrl) && t !in NamesFor(Shift) && t !in NamesFor(Alt);
    assert t !in NamesFor(Meta) && t !in NamesFor(Super);
  }

  lemma NotRenamed(t: string)
    requires Plain(t) && forall k :: (t, k) !in KEY_NAMES
    ensures NormalizeKey(t) == t
  {
    assert forall i :: 0 <= i < |KEY_NAMES| ==> KEY_NAMES[i].0 != t;
    assert PlainChar(t[0]);
  }

  /** Folding the case of a word leaves it without separators and blanks only if it had none. */
  lemma PlainWhenFolded(word: string)
    requires Plain(Lower(word))
    ensures Sturdy(word) && TokenOf(word) == Lower(word)
  {
    forall i | 0 <= i < |word|
      ensures word[i] != '+' && !Blank(word[i])
    {
      assert PlainChar(Lower(word)[i]) && Lower(word)[i] == LowerChar(word[i]);
    }
    TrimNothing(word, Blank);
  }

  lemma ModifierWordReads(word: string, m: Modifier)
    requires NamesModifier(word, m)
    ensures Sturdy(word) && Lex(TokenOf(word)) == Mod(m)
  {
    ModifierNamesLex(Lower(word), m);
    PlainWhenFolded(word);
  }

  lemma KeyWordReads(word: string, key: string)
    requires MeansKey(word, key)
    ensures Sturdy(word) && Lex(TokenOf(word)) == Key(key)
  {
    if NamesKey(word, key) {
      KeyNamesLex(Lower(word), key);
    } else {
      forall m
        ensures Lower(word) !in NamesFor(m)
      {
        assert !NamesModifier(word, m);
      }
      forall k
        ensures (Lower(word), k) !in KEY_NAMES
      {
        assert !NamesKey(word, k);
      }
      OthersLex(Lower(word));
    }
    PlainWhenFolded(word);
  }

  /** Modifiers by any of their names, in any case and order, and then a key, read as just that. */
  lemma NamesRead(words: seq<string>, mods: seq<Modifier>, word: string, key: string)
    requires |words| == |mods| && forall i :: 0 <= i < |words| ==> NamesModifier(words[i], mods[i])
    requires MeansKey(word, key)
    ensures ParsedCombo(Join(words + [word], '+'))
         == Ok(Combo(Ctrl in mods, Shift in mods, Alt in mods, Meta in mods, Super in mods, key))
  {
    var pieces := words + [word];
    forall i | 0 <= i < |pieces|
      ensures Sturdy(pieces[i])
      ensures Lex(TokenOf(pieces[i])) == (ModLexemes(mods) + [Key(key)])[i]
    {
      if i < |words| {
        ModifierWordReads(words[i], mods[i]);
      } else {
        KeyWordReads(word, key);
      }
    }
    assert Lexemes(pieces) == ModLexemes(mods) + [Key(key)];
    PiecesStayApart(pieces);
    ReadModsAndKey(mods, key, Join(pieces, '+'));
  }

  lemma PiecesStayApart(pieces: seq<string>)
    requires |pieces| > 0 && forall i :: 0 <= i < |pieces| ==> Sturdy(pieces[i])
    ensures var text := Join(pieces, '+');
            text != "" && Trim(text, Blank) == text && Split(text, '+') == pieces
  {
    JoinSolid(pieces, '+', Blank);
    JoinEnds(pieces, '+');
    TrimNothing(Join(pieces, '+'), Blank);
    SplitJoin(pieces, '+');
  }

  // ---------------------------------------------------------------- errors

  /** The first token that cannot follow the ones before it. */
  ghost predicate FirstBad(xs: seq<Lexeme>, i: nat) {
    i < |xs| && Readable(xs, i) && !Readable(xs, i + 1)
  }

  /** The error names the trimmed combo; which error it is, the first bad token decides. */
  lemma ComboErrorIs(input: string)
    ensures var trimmed := Trim(input, Blank);
            var xs := Lexemes(Split(trimmed, '+'));
            && (ParsedCombo(input) == Err(EmptyCombo) <==> trimmed == "")
            && (trimmed != "" ==>
                  && (forall i: nat :: FirstBad(xs, i) ==>
                        ParsedCombo(input) ==
                        Err(if xs[i].Nothing? then EmptyToken(trimmed) else MultipleBaseKeys(trimmed)))
                  && (Readable(xs, |xs|) && (forall i :: 0 <= i < |xs| ==> !xs[i].Key?) ==>
                        ParsedCombo(input) == Err(MissingBaseKey(trimmed))))
  {
    var trimmed := Trim(input, Blank);
    var xs := Lexemes(Split(trimmed, '+'));
    forall i: nat | FirstBad(xs, i)
      ensures Fold(xs, |xs|) == Err(if xs[i].Nothing? then Empty else SecondBase)
    {
      BadTokenDecides(xs, i);
    }
    if Readable(xs, |xs|) && forall i :: 0 <= i < |xs| ==> !xs[i].Key? {
      NoKeyFound(xs);
    }
  }

  lemma BadTokenDecides(xs: seq<Lexeme>, i: nat)
    requires FirstBad(xs, i)
    ensures Fold(xs, |xs|) == Err(if xs[i].Nothing? then Empty else SecondBase)
  {
    FoldMeaning(xs, i);
    FoldMeaning(xs, i + 1);
    ErrorStays(xs, i + 1, |xs|);
  }

  lemma NoKeyFound(xs: seq<Lexeme>)
    requires Readable(xs, |xs|) && forall i :: 0 <= i < |xs| ==> !xs[i].Key?
    ensures Fold(xs, |xs|).Ok? && Fold(xs, |xs|).value.key == None
  {
    FoldMeaning(xs, |xs|);
    assert forall name :: Key(name) !in xs[..|xs|];
  }

  /** A chord is its words in turn: all of them read, or the first unreadable one's error. A lone space
      is the space key. */
  lemma ChordIs(input: string)
    ensures input == " " ==> ParsedChord(input) == Ok([Combo(false, false, false, false, false, "space")])
    ensures input != " " && AllBlank(input, Blank) ==> ParsedChord(input) == Err(EmptyChord)
    ensures !AllBlank(input, Blank) ==> InTurn(Words(Trim(input, Blank), Blank), ParsedCombo, ParsedChord(input))
  {
    var left, right := TrimMeaning(input, Blank);
    var t := Trim(input, Blank);
    if t == "" {
      assert input == left + right;
    } else {
      assert input[|left|] == t[0];
      TraverseInTurn(Words(t, Blank), ParsedCombo);
    }
  }

  // ---------------------------------------------------------------- printed text

  /** Every name followed by a plus sign. */
  ghost function PlusAll(names: seq<string>): string {
    if names == [] then "" else names[0] + "+" + PlusAll(names[1..])
  }

  lemma {:induction false} PlusConcat(a: seq<string>, b: seq<string>)
    ensures PlusAll(a + b) == PlusAll(a) + PlusAll(b)
  {
    if a == [] {
      assert a + b == b;
    } else {
      assert (a + b)[1..] == a[1..] + b;
      PlusConcat(a[1..], b);
    }
  }

  lemma {:induction false} JoinPlus(names: seq<string>, last: string)
    ensures Join(names + [last], '+') == PlusAll(names) + last
  {
    if names == [] {
      assert names + [last] == [last];
    } else {
      JoinPlus(names[1..], last);
      assert (names + [last])[1..] == names[1..] + [last];
    }
  }

  ghost function Prefix(ms: seq<Modifier>): string {
    PlusAll(Names(ms))
  }

  lemma PrefixConcat(a: seq<Modifier>, b: seq<Modifier>)
    ensures Prefix(a + b) == Prefix(a) + Prefix(b)
  {
    assert Names(a + b) == Names(a) + Names(b);
    PlusConcat(Names(a), Names(b));
  }

  function Shown(b: bool, s: string): string {
    if b then s else ""
  }

  lemma PrefixWhen(b: bool, m: Modifier)
    ensures Prefix(When(b, m)) == Shown(b, NameOf(m) + "+")
  {
    var names := Names(When(b, m));
    if b {
      assert names == [NameOf(m)] && names[1..] == [];
      assert NameOf(m) + "+" + PlusAll([]) == NameOf(m) + "+";
    } else {
      assert names == [];
    }
  }

  lemma PrefixHeld(c: Combo)
    ensures Prefix(Held(c)) == Prefix(When(c.ctrl, Ctrl)) + Prefix(When(c.alt, Alt)) + Prefix(When(c.shift, Shift))
                             + Prefix(When(c.meta, Meta)) + Prefix(When(c.superKey, Super))
  {
    var a, b, d, e, f :=
      When(c.ctrl, Ctrl), When(c.alt, Alt), When(c.shift, Shift), When(c.meta, Meta), When(c.superKey, Super);
    PrefixConcat(a + b + d + e, f);
    PrefixConcat(a + b + d, e);
    PrefixConcat(a + b, d);
    PrefixConcat(a, b);
  }

  lemma NamesAndPlus()
    ensures NameOf(Ctrl) + "+" == "ctrl+" && NameOf(Alt) + "+" == "alt+" && NameOf(Shift) + "+" == "shift+"
    ensures NameOf(Meta) + "+" == "meta+" && NameOf(Super) + "+" == "cmd+"
  {
  }

  lemma PrintsWith(c: Combo, last: string)
    ensures Join(Names(Held(c)) + [last], '+')
         == Shown(c.ctrl, "ctrl+") + Shown(c.alt, "alt+") + Shown(c.shift, "shift+")
          + Shown(c.meta, "meta+") + Shown(c.superKey, "cmd+") + last
  {
    JoinPlus(Names(Held(c)), last);
    PrefixHeld(c);
    PrefixWhen(c.ctrl, Ctrl);
    PrefixWhen(c.alt, Alt);
    PrefixWhen(c.shift, Shift);
    PrefixWhen(c.meta, Meta);
    PrefixWhen(c.superKey, Super);
    NamesAndPlus();
  }

  /** The held modifiers always come in the same order, each with a plus sign, and the key comes last. */
  lemma PrintsAs(c: Combo)
    ensures PrintedCombo(c) == Shown(c.ctrl, "ctrl+") + Shown(c.alt, "alt+") + Shown(c.shift, "shift+")
                             + Shown(c.meta, "meta+") + Shown(c.superKey, "cmd+") + DisplayName(c.key)
  {
    PrintsWith(c, DisplayName(c.key));
  }

  const SHOWN_DIFFERENTLY: seq<string> := [
    "escape", "space", " ", "enter", "backspace", "delete", "up", "down", "left", "right", "pageup", "pagedown",
    "home", "end"]

  /** Any key but these prints as it is stored. */
  lemma OthersShowAsStored(key: string)
    requires key !in SHOWN_DIFFERENTLY
    ensures DisplayName(key) == key
  {
    assert forall i :: 0 <= i < |SHOWN_DIFFERENTLY| ==> SHOWN_DIFFERENTLY[i] != key;
  }
}
