/**
 The editor surface drives the handler once per keystroke: when the handler
 answers `"not-handled"` the surface inserts the typed characters itself;
 when it answers `"handled"` the state the handler produced is kept. This
 module replays a run of keystrokes in one block and proves what typing a
 token and a space, once or repeatedly, does.
 */
module Session {
  import opened Draft
  import opened App

  /** One keystroke delivering `chars`: the handler first, the surface's default insertion otherwise. */
  function Keystroke(s: EditorState, chars: string): (r: EditorState)
    requires WellFormed(s)
    ensures WellFormed(r) && r.selection.key == s.selection.key
    ensures OthersUnchanged(s.blocks, r.blocks, s.selection.key)
  {
    var o := HandleBeforeInput(chars, s);
    if o.value == Handled then o.state else InsertCharacters(s, chars)
  }

  /** A keystroke other than a single space is always inserted by the surface. */
  lemma KeystrokeInserts(s: EditorState, chars: string)
    requires WellFormed(s) && chars != " "
    ensures Keystroke(s, chars) == InsertCharacters(s, chars)
  {
  }

  /**
   A single space is inserted literally unless the block's whole text is a
   token, in which case that token's trigger fires.
   */
  lemma KeystrokeSpace(s: EditorState)
    requires WellFormed(s)
    ensures Keystroke(s, " ") ==
              match TriggerOf(s.blocks[s.selection.key].text)
              case None => InsertCharacters(s, " ")
              case Some(t) => Fire(s, t)
  {
    HandleBeforeInputFollowsTable(s);
  }

  /** The keystrokes that type `text` one character at a time. */
  function Keys(text: string): (keys: seq<string>)
    ensures |keys| == |text|
    ensures forall i :: 0 <= i < |text| ==> keys[i] == [text[i]]
  {
    if text == [] then [] else [[text[0]]] + Keys(text[1..])
  }

  /**
   The state after the keystrokes `keys`, in order. The selection stays in
   its block and no other block is touched, however long the run.
   */
  function TypeAll(s: EditorState, keys: seq<string>): (r: EditorState)
    requires WellFormed(s)
    ensures WellFormed(r) && r.selection.key == s.selection.key
    ensures OthersUnchanged(s.blocks, r.blocks, s.selection.key)
    decreases |keys|
  {
    if keys == [] then s else TypeAll(Keystroke(s, keys[0]), keys[1..])
  }

  /** Replaying one keystroke is that keystroke. */
  lemma TypeAllSingle(s: EditorState, chars: string)
    requires WellFormed(s)
    ensures TypeAll(s, [chars]) == Keystroke(s, chars)
  {
    assert [chars][1..] == [];
  }

  /** `n` copies of `keys`, one after another. */
  function Repeat(keys: seq<string>, n: nat): seq<string> {
    if n == 0 then [] else keys + Repeat(keys, n - 1)
  }

  /** Replaying two runs one after the other is replaying their concatenation. */
  lemma {:induction false} TypeAllAppend(s: EditorState, a: seq<string>, b: seq<string>)
    requires WellFormed(s)
    ensures TypeAll(s, a + b) == TypeAll(TypeAll(s, a), b)
    decreases |a|
  {
    if a == [] {
      assert a + b == b;
    } else {
      assert (a + b)[0] == a[0];
      assert (a + b)[1..] == a[1..] + b;
      TypeAllAppend(Keystroke(s, a[0]), a[1..], b);
    }
  }

  /** A run that starts with `a`, where `a` leads to `mid`, continues from `mid`. */
  lemma TypeAllFrom(s: EditorState, a: seq<string>, b: seq<string>, mid: EditorState)
    requires WellFormed(s) && TypeAll(s, a) == mid
    ensures TypeAll(s, a + b) == TypeAll(mid, b)
  {
    TypeAllAppend(s, a, b);
  }

  /** Typing text replays its first character and then the rest. */
  lemma TypeFirstKey(s: EditorState, text: string)
    requires WellFormed(s) && text != []
    ensures TypeAll(s, Keys(text)) == TypeAll(Keystroke(s, [text[0]]), Keys(text[1..]))
  {
    assert Keys(text)[0] == [text[0]] && Keys(text)[1..] == Keys(text[1..]);
  }

  /** Inserting nothing at a cursor changes nothing. */
  lemma InsertNothing(s: EditorState)
    requires WellFormed(s) && s.selection.IsCollapsed()
    ensures InsertCharacters(s, "") == s
  {
    var k := s.selection.key;
    var r := InsertCharacters(s, "");
    assert r.blocks[k] == s.blocks[k];
    assert r.blocks == s.blocks;
  }

  /** Splicing `a` in at `p` and then `b` just behind it splices in `a + b`. */
  lemma SpliceTwice(text: string, p: nat, a: string, b: string)
    requires p <= |text|
    ensures var mid := text[..p] + a + text[p..];
            mid[..p + |a|] + b + mid[p + |a|..] == text[..p] + (a + b) + text[p..]
  {
    var mid := text[..p] + a + text[p..];
    assert mid[..p + |a|] == text[..p] + a;
    assert mid[p + |a|..] == text[p..];
  }

  /** Inserting `a` and then `b` at a cursor is inserting `a + b` there. */
  lemma InsertCharactersTwice(s: EditorState, a: string, b: string)
    requires WellFormed(s) && s.selection.IsCollapsed()
    ensures InsertCharacters(InsertCharacters(s, a), b) == InsertCharacters(s, a + b)
  {
    var k, p := s.selection.key, s.selection.StartOffset();
    var twice := InsertCharacters(InsertCharacters(s, a), b);
    var whole := InsertCharacters(s, a + b);
    SpliceTwice(s.blocks[k].text, p, a, b);
    assert twice.blocks[k] == whole.blocks[k];
    assert twice.blocks == whole.blocks;
  }

  /**
   Typing text that holds no space, one character at a time at a cursor,
   is never intercepted: it is the surface's insertion of the whole text.
   */
  lemma {:induction false} TypingWithoutSpaces(s: EditorState, text: string)
    requires WellFormed(s) && s.selection.IsCollapsed()
    requires forall i :: 0 <= i < |text| ==> text[i] != ' '
    ensures TypeAll(s, Keys(text)) == InsertCharacters(s, text)
    decreases |text|
  {
    if text == [] {
      InsertNothing(s);
    } else {
      var c := [text[0]];
      assert c != " " && c + text[1..] == text;
      TypeFirstKey(s, text);
      KeystrokeInserts(s, c);
      TypingWithoutSpaces(InsertCharacters(s, c), text[1..]);
      InsertCharactersTwice(s, c, text[1..]);
    }
  }

  /** Typing space-free text and then a space ends with that space typed behind the inserted text. */
  lemma TypeTextThenSpace(s: EditorState, text: string)
    requires WellFormed(s) && s.selection.IsCollapsed()
    requires forall i :: 0 <= i < |text| ==> text[i] != ' '
    ensures TypeAll(s, Keys(text) + [" "]) == Keystroke(InsertCharacters(s, text), " ")
  {
    TypingWithoutSpaces(s, text);
    TypeAllFrom(s, Keys(text), [" "], InsertCharacters(s, text));
    TypeAllSingle(InsertCharacters(s, text), " ");
  }

  /** The cursor at the start of an empty block. */
  predicate AtEmptyBlockStart(s: EditorState) {
    && s.selection.key in s.blocks
    && s.blocks[s.selection.key].text == ""
    && s.selection == Caret(s.selection.key, 0)
  }

  /** A fired trigger leaves the cursor at the start of an empty block. */
  lemma FiredIsAtEmptyBlockStart(s: EditorState, t: Trigger)
    requires s.selection.key in s.blocks
    ensures AtEmptyBlockStart(Fire(s, t))
  {
  }

  /**
   Typing a trigger's token and then a space at the start of an empty block
   fires that trigger: the block is empty again, the token's effect has
   been applied, and the space has not been inserted.
   */
  lemma {:induction false} TokenThenSpaceFires(s: EditorState, t: Trigger)
    requires AtEmptyBlockStart(s)
    ensures TypeAll(s, Keys(Token(t)) + [" "]) == Fire(s, t)
  {
    var k, tok := s.selection.key, Token(t);
    assert forall i :: 0 <= i < |tok| ==> tok[i] == '#' || tok[i] == '*';
    TypeTextThenSpace(s, tok);
    var s1 := InsertCharacters(s, tok);
    assert s1.blocks[k].text == tok;
    TriggerOfToken(t);
    KeystrokeSpace(s1);
    FireForgetsTextAndCursor(s, s1, t);
  }

  /** Trigger `t` fired `n` times in a row. */
  function FireTimes(s: EditorState, t: Trigger, n: nat): (r: EditorState)
    requires s.selection.key in s.blocks
    ensures r.selection.key == s.selection.key && r.selection.key in r.blocks
    decreases n
  {
    if n == 0 then s else FireTimes(Fire(s, t), t, n - 1)
  }

  /** The run `round` typed `n` times over. */
  function TypeRounds(s: EditorState, round: seq<string>, n: nat): (r: EditorState)
    requires WellFormed(s)
    ensures WellFormed(r) && r.selection.key == s.selection.key
    ensures OthersUnchanged(s.blocks, r.blocks, s.selection.key)
    decreases n
  {
    if n == 0 then s else TypeRounds(TypeAll(s, round), round, n - 1)
  }

  /** Replaying `n` copies of a run is typing that run `n` times over. */
  lemma {:induction false} TypeAllRepeat(s: EditorState, round: seq<string>, n: nat)
    requires WellFormed(s)
    ensures TypeAll(s, Repeat(round, n)) == TypeRounds(s, round, n)
    decreases n
  {
    if n > 0 {
      TypeAllAppend(s, round, Repeat(round, n - 1));
      TypeAllRepeat(TypeAll(s, round), round, n - 1);
    }
  }

  /**
   A run that fires `t` whenever it is typed at the start of an empty block,
   typed `n` times from there, fires `t` `n` times.
   */
  lemma {:induction false} RoundsFireEachTime(s: EditorState, round: seq<string>, t: Trigger, n: nat)
    requires AtEmptyBlockStart(s)
    requires forall u :: AtEmptyBlockStart(u) ==> TypeAll(u, round) == Fire(u, t)
    ensures TypeRounds(s, round, n) == FireTimes(s, t, n)
    decreases n
  {
    if n > 0 {
      FiredIsAtEmptyBlockStart(s, t);
      RoundsFireEachTime(Fire(s, t), round, t, n - 1);
    }
  }

  /** Typing a token and a space `n` times at the start of an empty block fires its trigger `n` times. */
  lemma RepeatedTokenFiresEachTime(s: EditorState, t: Trigger, n: nat)
    requires AtEmptyBlockStart(s)
    ensures TypeRounds(s, Keys(Token(t)) + [" "], n) == FireTimes(s, t, n)
  {
    forall u | AtEmptyBlockStart(u)
      ensures TypeAll(u, Keys(Token(t)) + [" "]) == Fire(u, t)
    {
      TokenThenSpaceFires(u, t);
    }
    RoundsFireEachTime(s, Keys(Token(t)) + [" "], t, n);
  }

  /** From an emptied block, firing a trigger an even number of times changes nothing, an odd number fires it once. */
  lemma {:induction false} FireTimesParity(s: EditorState, t: Trigger, n: nat)
    requires AtEmptyBlockStart(s)
    ensures FireTimes(s, t, n) == if n % 2 == 0 then s else Fire(s, t)
    decreases n
  {
    if n >= 2 {
      var twice := Fire(Fire(s, t), t);
      FireTwiceRestores(s, t);
      assert FireTimes(s, t, n) == FireTimes(twice, t, n - 2);
      FireTimesParity(s, t, n - 2);
    }
  }

  /**
   Typing a token and a space `n` times at the start of an empty block
   leaves the trigger applied when `n` is odd and the state exactly as it
   was when `n` is even: a style trigger typed twice switches its style
   off again, `#` typed twice turns the heading back into a paragraph.
   */
  lemma RepeatedTriggerParity(s: EditorState, t: Trigger, n: nat)
    requires AtEmptyBlockStart(s)
    ensures TypeAll(s, Repeat(Keys(Token(t)) + [" "], n)) == if n % 2 == 0 then s else Fire(s, t)
  {
    TypeAllRepeat(s, Keys(Token(t)) + [" "], n);
    RepeatedTokenFiresEachTime(s, t, n);
    FireTimesParity(s, t, n);
  }

  /** A token behind a text holding something other than `*` is not a token. */
  lemma NoTokenAfterText(prefix: string, t: Trigger, i: nat)
    requires i < |prefix| && prefix[i] != '*'
    ensures TriggerOf(prefix + Token(t)) == None
  {
    var text := prefix + Token(t);
    assert text[i] == prefix[i] && |text| >= 2;
    forall u: Trigger ensures text != Token(u) {
      if |Token(u)| == |text| {
        assert Token(u)[i] == '*';
      }
    }
  }

  /**
   A token typed after other text (anything that is not itself a run of
   `*`) is not a trigger: the space is inserted literally behind it.
   */
  lemma {:induction false} TokenAfterTextIsLiteral(s: EditorState, prefix: string, t: Trigger, i: nat)
    requires AtEmptyBlockStart(s)
    requires forall j :: 0 <= j < |prefix| ==> prefix[j] != ' '
    requires i < |prefix| && prefix[i] != '*'
    ensures var r := TypeAll(s, Keys(prefix + Token(t)) + [" "]);
            r.blocks[s.selection.key].text == prefix + Token(t) + " "
  {
    var k, text := s.selection.key, prefix + Token(t);
    NoTokenAfterText(prefix, t, i);
    TypeTextThenSpace(s, text);
    var s1 := InsertCharacters(s, text);
    assert s1.blocks[k].text == text;
    KeystrokeSpace(s1);
  }
}
