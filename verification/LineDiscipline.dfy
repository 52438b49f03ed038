/**
  The keyboard: scan codes become characters, characters edit the line of the terminal on the
  screen, and reading from the terminal returns the edited line.
 */
module LineDiscipline {
  import opened Bytes
  import Paging

  const MAX_LINE := 128
  const NUM_SCAN_CODES := 58

  const CAPS_LOCK: byte := 0x3A
  const L_SHIFT_PRESS: byte := 0x2A
  const L_SHIFT_RELEASE: byte := 0xAA
  const R_SHIFT_PRESS: byte := 0x36
  const R_SHIFT_RELEASE: byte := 0xB6
  const CTRL_PRESS: byte := 0x1D
  const CTRL_RELEASE: byte := 0x9D
  const ALT_PRESS: byte := 0x38
  const ALT_RELEASE: byte := 0xB8
  const L_PRESS: byte := 0x26
  const F1_PRESS: byte := 0x3B
  const F3_PRESS: byte := 0x3D
  const TAB_PRESS: byte := 0x0F
  const TAB_SPACES := 4

  /** The two tables from scan codes to characters, row by row of the keyboard. */
  const LOWERCASE: string :=
    "\0\01234567890-=\U{8}\0" + "qwertyuiop[]\n\0" + "asdfghjkl;'`\0" + "\\zxcvbnm,./\0\0\0 "
  const UPPERCASE: string :=
    "\0\0!@#$%^&*()_+\U{8}\0" + "QWERTYUIOP{}\n\0" + "ASDFGHJKL:\"~\0" + "|ZXCVBNM<>?\0\0\0 "

  predicate IsLetterKey(scan: byte) {
    0x10 <= scan <= 0x19 || 0x1E <= scan <= 0x26 || 0x2C <= scan <= 0x32
  }

  // ---------------------------------------------------------------- modifiers

  datatype Flags = Flags(caps: bool, lShift: bool, rShift: bool, ctrl: bool, alt: bool)

  /** What a scan code stands for, once the modifiers are taken into account. */
  datatype Action = Modifier(flags: Flags) | Clear | Show(terminal: nat) | Type(keys: seq<byte>)

  function Spaces(n: nat): (s: seq<byte>)
    ensures |s| == n
  {
    if n == 0 then [] else [SPACE] + Spaces(n - 1)
  }

  function CharOf(flags: Flags, scan: byte): byte
    requires scan < NUM_SCAN_CODES
  {
    var shift := flags.lShift || flags.rShift;
    var upper := if IsLetterKey(scan) then shift != flags.caps else shift;
    (if upper then UPPERCASE[scan] else LOWERCASE[scan]) as int % 0x100  // kept in an 8-bit variable
  }

  function Decode(flags: Flags, scan: byte): Action {
    if scan == CAPS_LOCK then Modifier(flags.(caps := !flags.caps))
    else if scan == L_SHIFT_PRESS then Modifier(flags.(lShift := true))
    else if scan == R_SHIFT_PRESS then Modifier(flags.(rShift := true))
    else if scan == L_SHIFT_RELEASE then Modifier(flags.(lShift := false))
    else if scan == R_SHIFT_RELEASE then Modifier(flags.(rShift := false))
    else if scan == CTRL_PRESS then Modifier(flags.(ctrl := true))
    else if scan == CTRL_RELEASE then Modifier(flags.(ctrl := false))
    else if scan == ALT_PRESS then Modifier(flags.(alt := true))
    else if scan == ALT_RELEASE then Modifier(flags.(alt := false))
    else if scan == L_PRESS && flags.ctrl then Clear
    else if flags.alt && F1_PRESS <= scan <= F3_PRESS then Show(scan - F1_PRESS)
    else if scan == TAB_PRESS then Type(Spaces(TAB_SPACES))
    else if scan < NUM_SCAN_CODES then Type([CharOf(flags, scan)])
    else Type([])
  }

  /** Where the letters of the alphabet are on the keyboard. */
  const LETTER_KEYS: seq<byte> := [0x1E, 0x30, 0x2E, 0x20, 0x12, 0x21, 0x22, 0x23, 0x17, 0x24, 0x25, 0x26, 0x32,
                                   0x31, 0x18, 0x19, 0x10, 0x13, 0x1F, 0x14, 0x16, 0x2F, 0x11, 0x2D, 0x15, 0x2C]

  lemma LetterTables(k: nat)
    requires k < 26
    ensures IsLetterKey(LETTER_KEYS[k])
    ensures LOWERCASE[LETTER_KEYS[k]] as int == 97 + k
  {
  }

  lemma CapitalTables(k: nat)
    requires k < 26
    ensures UPPERCASE[LETTER_KEYS[k]] as int == 65 + k
  {
  }

  /** Every letter key types its letter: a capital one if shift is held or caps lock is on, but not both. */
  lemma LettersAreCased(flags: Flags, k: nat)
    requires k < 26
    ensures IsLetterKey(LETTER_KEYS[k])
    ensures CharOf(flags, LETTER_KEYS[k]) == (if (flags.lShift || flags.rShift) != flags.caps then 65 else 97) + k
  {
    LetterTables(k);
    CapitalTables(k);
  }

  lemma CasesDifferAbove(scan: byte)
    requires 0x10 <= scan <= 0x19
    ensures UPPERCASE[scan] as int + 32 == LOWERCASE[scan] as int < 0x100
  {
  }

  lemma CasesDifferBelow(scan: byte)
    requires 0x1E <= scan <= 0x26 || 0x2C <= scan <= 0x32
    ensures UPPERCASE[scan] as int + 32 == LOWERCASE[scan] as int < 0x100
  {
  }

  /** Caps lock changes nothing but letters. */
  lemma OthersIgnoreCaps(flags: Flags, scan: byte)
    requires scan < NUM_SCAN_CODES
    ensures !IsLetterKey(scan) <==> CharOf(flags, scan) == CharOf(flags.(caps := !flags.caps), scan)
  {
    if IsLetterKey(scan) {
      if scan <= 0x19 {
        CasesDifferAbove(scan);
      } else {
        CasesDifferBelow(scan);
      }
    }
  }

  /** A key types a character, with and without shift, whatever the other modifiers. */
  ghost predicate Types(flags: Flags, scan: byte, lower: char, upper: char) {
    && lower as int < 0x100 && upper as int < 0x100
    && Decode(flags, scan) == Type([(if flags.lShift || flags.rShift then upper else lower) as int])
  }

  lemma DecodesToChar(flags: Flags, scan: byte)
    requires scan < NUM_SCAN_CODES && scan != L_SHIFT_PRESS && scan != R_SHIFT_PRESS && scan != CTRL_PRESS
    requires scan != ALT_PRESS && scan != TAB_PRESS && scan != L_PRESS
    ensures Decode(flags, scan) == Type([CharOf(flags, scan)])
  {
  }

  lemma TypesByTables(flags: Flags, scan: byte, lower: char, upper: char)
    requires scan < NUM_SCAN_CODES && !IsLetterKey(scan) && LOWERCASE[scan] == lower && UPPERCASE[scan] == upper
    requires scan != L_SHIFT_PRESS && scan != R_SHIFT_PRESS && scan != CTRL_PRESS && scan != ALT_PRESS
              && scan != TAB_PRESS
    requires lower as int < 0x100 && upper as int < 0x100
    ensures Types(flags, scan, lower, upper)
  {
    DecodesToChar(flags, scan);
    assert CharOf(flags, scan) == (if flags.lShift || flags.rShift then upper else lower) as int;
  }

  /** The digit keys and the two beside them. */
  lemma DigitKeys(flags: Flags, k: nat)
    requires k < 12
    ensures Types(flags, 2 + k, "1234567890-="[k], "!@#$%^&*()_+"[k])
  {
    TypesByTables(flags, 2 + k, "1234567890-="[k], "!@#$%^&*()_+"[k]);
  }

  /** The keys beside the letters. */
  lemma PunctuationKeys(flags: Flags)
    ensures Types(flags, 0x1A, '[', '{') && Types(flags, 0x1B, ']', '}')
    ensures Types(flags, 0x27, ';', ':') && Types(flags, 0x28, '\'', '"') && Types(flags, 0x29, '`', '~')
    ensures Types(flags, 0x2B, '\\', '|')
    ensures Types(flags, 0x33, ',', '<') && Types(flags, 0x34, '.', '>') && Types(flags, 0x35, '/', '?')
  {
    TypesByTables(flags, 0x1A, '[', '{');
    TypesByTables(flags, 0x1B, ']', '}');
    TypesByTables(flags, 0x27, ';', ':');
    TypesByTables(flags, 0x28, '\'', '"');
    TypesByTables(flags, 0x29, '`', '~');
    TypesByTables(flags, 0x2B, '\\', '|');
    TypesByTables(flags, 0x33, ',', '<');
    TypesByTables(flags, 0x34, '.', '>');
    TypesByTables(flags, 0x35, '/', '?');
  }

  /** Backspace, Enter and the space bar type the same with shift; two keys and code 0 a NUL; Tab four spaces. */
  lemma FixedKeys(flags: Flags)
    ensures Types(flags, 0x0E, '\U{8}', '\U{8}') && Types(flags, 0x1C, '\n', '\n') && Types(flags, 0x39, ' ', ' ')
    ensures Types(flags, 0x00, '\0', '\0') && Types(flags, 0x01, '\0', '\0') && Types(flags, 0x37, '\0', '\0')
    ensures Decode(flags, 0x0F) == Type([32, 32, 32, 32])
  {
    TypesByTables(flags, 0x0E, '\U{8}', '\U{8}');
    TypesByTables(flags, 0x1C, '\n', '\n');
    TypesByTables(flags, 0x39, ' ', ' ');
    TypesByTables(flags, 0x00, '\0', '\0');
    TypesByTables(flags, 0x01, '\0', '\0');
    TypesByTables(flags, 0x37, '\0', '\0');
    assert Spaces(1) == [32] + Spaces(0) == [32];
    assert Spaces(2) == [32] + Spaces(1);
    assert Spaces(3) == [32] + Spaces(2);
    assert Spaces(4) == [32] + Spaces(3) == [32, 32, 32, 32];
  }

  /** Alt and a function key show a terminal, Ctrl-L clears one; keys beyond the tables type nothing. */
  lemma CommandKeys(flags: Flags, scan: byte)
    ensures Decode(flags, scan).Clear? <==> flags.ctrl && scan == 0x26
    ensures Decode(flags, scan).Show? <==> flags.alt && 0x3B <= scan <= 0x3D
    ensures Decode(flags, scan).Show? ==> Decode(flags, scan).terminal == scan - 0x3B
    ensures scan > 0x3A && Decode(flags, scan).Type? ==> Decode(flags, scan).keys == []
  {
  }

  /** The keys that are only watched, by the codes they send when pressed and let go. */
  lemma ModifierKeys(flags: Flags)
    ensures Decode(flags, 0x3A) == Modifier(flags.(caps := !flags.caps))
    ensures Decode(flags, 0x2A) == Modifier(flags.(lShift := true))
              && Decode(flags, 0xAA) == Modifier(flags.(lShift := false))
    ensures Decode(flags, 0x36) == Modifier(flags.(rShift := true))
              && Decode(flags, 0xB6) == Modifier(flags.(rShift := false))
    ensures Decode(flags, 0x1D) == Modifier(flags.(ctrl := true))
              && Decode(flags, 0x9D) == Modifier(flags.(ctrl := false))
    ensures Decode(flags, 0x38) == Modifier(flags.(alt := true))
              && Decode(flags, 0xB8) == Modifier(flags.(alt := false))
  {
  }

  // ---------------------------------------------------------------- editing

  /** One key typed at the end of a line: backspace takes a character away, and a full line takes no more. */
  function Pressed(text: seq<byte>, c: byte): seq<byte> {
    if c == BACKSPACE then (if text == [] then [] else text[..|text| - 1])
    else if |text| >= MAX_LINE - 1 then text
    else text + [c]
  }

  /** The line that a sequence of keys leaves of a text that is already there. */
  function Edit(start: seq<byte>, keys: seq<byte>): (text: seq<byte>)
    ensures |text| < MAX_LINE || |text| <= |start|
  {
    if keys == [] then start else Pressed(Edit(start, keys[..|keys| - 1]), keys[|keys| - 1])
  }

  /** The keys typed before Enter. */
  function BeforeEnter(keys: seq<byte>): (before: seq<byte>)
    ensures NEWLINE !in before
  {
    if keys == [] || keys[0] == NEWLINE then [] else [keys[0]] + BeforeEnter(keys[1..])
  }

  lemma {:induction false} BeforeEnterOfMore(keys: seq<byte>, c: byte)
    ensures BeforeEnter(keys + [c])
            == if NEWLINE in keys || c == NEWLINE then BeforeEnter(keys) else BeforeEnter(keys) + [c]
  {
    if keys != [] {
      BeforeEnterOfMore(keys[1..], c);
      assert (keys + [c])[1..] == keys[1..] + [c];
      assert NEWLINE in keys <==> keys[0] == NEWLINE || NEWLINE in keys[1..];
    } else {
      assert ([] + [c])[1..] == [];
    }
  }

  /** Backspace takes back the key before it, unless the line was full and did not take that key. */
  lemma BackspaceUndoes(start: seq<byte>, keys: seq<byte>, c: byte)
    requires c != BACKSPACE
    ensures Edit(start, keys + [c] + [8]) == Edit(start, keys) <==> |Edit(start, keys)| < 127
  {
    var typed := keys + [c];
    assert typed[..|typed| - 1] == keys;
    var erased := typed + [BACKSPACE];
    assert erased[..|erased| - 1] == typed;
  }

  /** A backspace takes the last character away, whatever line there is, and nothing from an empty one. */
  lemma BackspaceTakesOne(start: seq<byte>, keys: seq<byte>)
    ensures var line := Edit(start, keys);
            Edit(start, keys + [8]) == if line == [] then [] else line[..|line| - 1]
  {
    assert (keys + [8])[..|keys|] == keys;
  }

  /** Without backspace, what was typed comes behind what was there, cut where the line is full. */
  lemma {:induction false} EditWithoutBackspace(start: seq<byte>, keys: seq<byte>)
    requires BACKSPACE !in keys
    ensures Edit(start, keys) == if |start| >= 128 then start
                                 else if |start + keys| < 128 then start + keys
                                 else (start + keys)[..127]
  {
    if keys != [] {
      var before := keys[..|keys| - 1];
      assert start + keys == (start + before) + [keys[|keys| - 1]];
      EditWithoutBackspace(start, before);
    } else {
      assert start + keys == start;
    }
  }

  // ---------------------------------------------------------------- the lines of the terminals

  /** The part of terminal_info_t that the keyboard works on. */
  datatype Line = Line(keyboardBuffer: seq<byte>, currentChar: nat, enterFlag: bool,
                       charInLine: byte, currentLine: byte, resetFlag: bool)

  /** There is room in the buffer for one more character, be it only the NUL behind the line. */
  predicate LineOk(l: Line) { |l.keyboardBuffer| == MAX_LINE + 1 && l.currentChar <= MAX_LINE }

  /** What has been typed so far. */
  function Typed(l: Line): seq<byte>
    requires l.currentChar <= |l.keyboardBuffer|
  {
    l.keyboardBuffer[..l.currentChar]
  }

  /** update_kb_buffer. */
  function Updated(l: Line, c: byte): (l': Line)
    requires LineOk(l)
    ensures LineOk(l')
  {
    if c == NEWLINE || l.enterFlag then l.(enterFlag := true, charInLine := 0)
    else if c == BACKSPACE then
      var at := if l.currentChar > 0 then l.currentChar - 1 else 0;
      l.(currentChar := at, keyboardBuffer := l.keyboardBuffer[at := NUL])
    else if l.currentChar >= MAX_LINE - 1 then l
    else l.(keyboardBuffer := l.keyboardBuffer[l.currentChar := c], currentChar := l.currentChar + 1)
  }

  function UpdatedAll(l: Line, keys: seq<byte>): (l': Line)
    requires LineOk(l)
    ensures LineOk(l')
    decreases |keys|
  {
    if keys == [] then l else UpdatedAll(Updated(l, keys[0]), keys[1..])
  }

  /** The terminator that the wait in terminal_read puts behind the line each time it is drawn. */
  function Redrawn(l: Line): (l': Line)
    requires LineOk(l)
    ensures LineOk(l')
  {
    l.(keyboardBuffer := l.keyboardBuffer[l.currentChar := NUL], resetFlag := false)
  }

  /** A line in which keys have been typed since its text was start. */
  ghost predicate Holds(l: Line, start: seq<byte>, keys: seq<byte>) {
    LineOk(l) && Typed(l) == Edit(start, BeforeEnter(keys)) && (l.enterFlag <==> NEWLINE in keys)
  }

  lemma EditOfMore(start: seq<byte>, keys: seq<byte>, c: byte)
    ensures Edit(start, keys + [c]) == Pressed(Edit(start, keys), c)
  {
    assert (keys + [c])[..|keys + [c]| - 1] == keys;
  }

  /** Unless a line is finished, a key changes its text and nothing else about it. */
  lemma UpdateTypes(l: Line, c: byte)
    requires LineOk(l) && !l.enterFlag && c != NEWLINE
    ensures Typed(Updated(l, c)) == Pressed(Typed(l), c) && !Updated(l, c).enterFlag
  {
  }

  /** Enter ends the line and the column, and other keys leave them; no key moves the terminal to another row. */
  lemma UpdateLeaves(l: Line, c: byte)
    requires LineOk(l)
    ensures var r := Updated(l, c);
            && r.currentLine == l.currentLine && r.resetFlag == l.resetFlag
            && (r.enterFlag <==> l.enterFlag || c == 10)
            && r.charInLine == (if l.enterFlag || c == 10 then 0 else l.charInLine)
            && (l.enterFlag || c == 10 ==> Typed(r) == Typed(l))
  {
  }

  lemma UpdateHolds(l: Line, start: seq<byte>, keys: seq<byte>, c: byte)
    requires Holds(l, start, keys)
    ensures Holds(Updated(l, c), start, keys + [c])
  {
    BeforeEnterOfMore(keys, c);
    if !l.enterFlag && c != NEWLINE {
      UpdateTypes(l, c);
      EditOfMore(start, BeforeEnter(keys), c);
    }
  }

  lemma {:induction false} UpdatesHold(l: Line, start: seq<byte>, keys: seq<byte>, more: seq<byte>)
    requires Holds(l, start, keys)
    ensures Holds(UpdatedAll(l, more), start, keys + more)
    decreases |more|
  {
    if more == [] {
      assert keys + more == keys;
    } else {
      UpdateHolds(l, start, keys, more[0]);
      UpdatesHold(Updated(l, more[0]), start, keys + [more[0]], more[1..]);
      assert keys + [more[0]] + more[1..] == keys + more;
    }
  }

  // ---------------------------------------------------------------- runs

  datatype State = State(flags: Flags, active: nat, lines: seq<Line>)

  predicate Ok(st: State) {
    && |st.lines| == Paging.MAX_TERMINALS && st.active < Paging.MAX_TERMINALS
    && forall t :: 0 <= t < |st.lines| ==> LineOk(st.lines[t])
  }

  /** What happens to the keyboard and the lines: a scan code arrives, or a waiting read draws the line. */
  datatype Event = Scan(code: byte) | Redraw

  /** keyboard_handler. */
  function Handled(st: State, scan: byte): (st': State)
    requires Ok(st)
    ensures Ok(st')
  {
    var l := st.lines[st.active];
    match Decode(st.flags, scan)
    case Modifier(flags) => st.(flags := flags)
    case Clear => st.(lines := st.lines[st.active := l.(resetFlag := true, currentLine := 0, charInLine := 0)])
    case Show(t) => st.(active := t)
    case Type(keys) => st.(lines := st.lines[st.active := UpdatedAll(l, keys)])
  }

  /** Ctrl-L moves the terminal shown to its first row and column, and asks for its line to be drawn again. */
  lemma ClearResets(st: State)
    requires Ok(st) && st.flags.ctrl
    ensures var r := Handled(st, 0x26);
            && r.flags == st.flags && r.active == st.active
            && (forall t :: 0 <= t < |st.lines| && t != st.active ==> r.lines[t] == st.lines[t])
            && var l := r.lines[st.active];
               && Typed(l) == Typed(st.lines[st.active]) && l.enterFlag == st.lines[st.active].enterFlag
               && l.resetFlag && l.currentLine == 0 && l.charInLine == 0
  {
  }

  function Step(st: State, e: Event): (st': State)
    requires Ok(st)
    ensures Ok(st')
  {
    match e
    case Scan(code) => Handled(st, code)
    case Redraw => st.(lines := st.lines[st.active := Redrawn(st.lines[st.active])])
  }

  function Run(st: State, es: seq<Event>): (st': State)
    requires Ok(st)
    ensures Ok(st')
  {
    if es == [] then st else Step(Run(st, es[..|es| - 1]), es[|es| - 1])
  }

  /** The keys that an event delivers to terminal t. */
  function Delivered(st: State, e: Event, t: nat): seq<byte>
    requires Ok(st)
  {
    if e.Scan? && st.active == t && Decode(st.flags, e.code).Type? then Decode(st.flags, e.code).keys else []
  }

  /** The keys that a run delivers to terminal t: those typed while it was on the screen. */
  function KeysFor(st: State, es: seq<Event>, t: nat): seq<byte>
    requires Ok(st)
  {
    if es == [] then []
    else KeysFor(st, es[..|es| - 1], t) + Delivered(Run(st, es[..|es| - 1]), es[|es| - 1], t)
  }

  lemma StepHolds(st: State, e: Event, t: nat, start: seq<byte>, keys: seq<byte>)
    requires Ok(st) && t < Paging.MAX_TERMINALS && Holds(st.lines[t], start, keys)
    ensures Holds(Step(st, e).lines[t], start, keys + Delivered(st, e, t))
  {
    var more := Delivered(st, e, t);
    if more == [] {
      assert keys + more == keys;
      assert UpdatedAll(st.lines[t], []) == st.lines[t];
    } else {
      UpdatesHold(st.lines[t], start, keys, more);
    }
  }

  /** Whatever is pressed and drawn in between, a line holds exactly the keys delivered to it, edited. */
  lemma {:induction false} RunHolds(st: State, es: seq<Event>, t: nat)
    requires Ok(st) && t < Paging.MAX_TERMINALS && !st.lines[t].enterFlag
    ensures Holds(Run(st, es).lines[t], Typed(st.lines[t]), KeysFor(st, es, t))
  {
    if es != [] {
      RunHolds(st, es[..|es| - 1], t);
      StepHolds(Run(st, es[..|es| - 1]), es[|es| - 1], t, Typed(st.lines[t]), KeysFor(st, es[..|es| - 1], t));
    }
  }

  /** What terminal_read returns once Enter has been pressed, and the line it leaves behind. */
  function ReadLine(l: Line): (r: (seq<byte>, Line))
    requires LineOk(l)
    ensures r.1.currentChar <= |r.1.keyboardBuffer| && r.0 == Typed(r.1)
    ensures LineOk(r.1) <==> l.currentChar < MAX_LINE
  {
    (Typed(l) + [NEWLINE],
     l.(enterFlag := false, keyboardBuffer := l.keyboardBuffer[l.currentChar := NEWLINE],
         currentChar := l.currentChar + 1))
  }

  /**
    From scan codes to a line: a read returns what was on the line, edited by the keys typed on it
    before Enter, and a newline; keys after Enter have no effect. In particular, on a terminal whose
    line was empty it returns the edited keys.
   */
  lemma ReadReturnsEditedLine(st: State, es: seq<Event>, t: nat)
    requires Ok(st) && t < Paging.MAX_TERMINALS && !st.lines[t].enterFlag
    ensures Run(st, es).lines[t].enterFlag <==> NEWLINE in KeysFor(st, es, t)
    ensures var text := Edit(Typed(st.lines[t]), BeforeEnter(KeysFor(st, es, t)));
      Run(st, es).lines[t].currentChar == |text| && ReadLine(Run(st, es).lines[t]).0 == text + [NEWLINE]
  {
    RunHolds(st, es, t);
    assert |Typed(Run(st, es).lines[t])| == Run(st, es).lines[t].currentChar;
  }

  /** The state after a read on terminal t. */
  function AfterRead(st: State, t: nat): (st': State)
    requires Ok(st) && t < Paging.MAX_TERMINALS
    ensures Ok(st') <==> st.lines[t].currentChar < MAX_LINE
  {
    var l := ReadLine(st.lines[t]).1;
    assert st.lines[t := l][t] == l;
    st.(lines := st.lines[t := l])
  }

  /**
    Only a write empties the line. A second read without one returns the first line once more, edited
    on by the new keys. It stays within the buffer whatever is typed; after it, the buffer has room
    for a third read, and for the NUL that its wait puts behind the line, exactly if the line it
    returned has at most 128 characters.
   */
  lemma SecondRead(st: State, es: seq<Event>, t: nat, es': seq<Event>)
    requires Ok(st) && t < Paging.MAX_TERMINALS && st.lines[t].currentChar == 0 && !st.lines[t].enterFlag
    ensures Ok(AfterRead(Run(st, es), t))
    ensures var st1 := AfterRead(Run(st, es), t);
            var line := Edit(ReadLine(Run(st, es).lines[t]).0, BeforeEnter(KeysFor(st1, es', t))) + [NEWLINE];
            && ReadLine(Run(st1, es').lines[t]).0 == line
            && (Ok(AfterRead(Run(st1, es'), t)) <==> |line| <= MAX_LINE)
  {
    ReadReturnsEditedLine(st, es, t);
    var st1 := AfterRead(Run(st, es), t);
    assert st1.lines[t] == ReadLine(Run(st, es).lines[t]).1;
    ReadReturnsEditedLine(st1, es', t);
  }

  const A_PRESS: byte := 0x1E
  const ENTER_PRESS: byte := 0x1C
  const NO_FLAGS := Flags(false, false, false, false, false)
  const LETTER_A: byte := 97

  lemma PlainKeys()
    ensures Decode(NO_FLAGS, A_PRESS) == Type([LETTER_A]) && Decode(NO_FLAGS, ENTER_PRESS) == Type([NEWLINE])
  {
  }

  /** A key that is not a modifier types its character on the terminal shown. */
  lemma PlainStep(st: State, code: byte, c: byte)
    requires Ok(st) && Decode(st.flags, code) == Type([c])
    ensures Step(st, Scan(code)).flags == st.flags && Step(st, Scan(code)).active == st.active
    ensures Delivered(st, Scan(code), st.active) == [c]
  {
  }

  lemma OneMoreEvent(st: State, es: seq<Event>, e: Event, t: nat)
    requires Ok(st)
    ensures Run(st, es + [e]) == Step(Run(st, es), e)
    ensures KeysFor(st, es + [e], t) == KeysFor(st, es, t) + Delivered(Run(st, es), e, t)
  {
    assert (es + [e])[..|es + [e]| - 1] == es;
  }

  /** A run delivers keys to the terminal shown, and leaves it shown and no modifier down. */
  ghost predicate HasTyped(st: State, es: seq<Event>, keys: seq<byte>)
    requires Ok(st)
  {
    Run(st, es).flags == NO_FLAGS && Run(st, es).active == st.active && KeysFor(st, es, st.active) == keys
  }

  lemma OneMorePlain(st: State, es: seq<Event>, keys: seq<byte>, code: byte, c: byte)
    requires Ok(st) && HasTyped(st, es, keys) && Decode(NO_FLAGS, code) == Type([c])
    ensures HasTyped(st, es + [Scan(code)], keys + [c])
  {
    OneMoreEvent(st, es, Scan(code), st.active);
    PlainStep(Run(st, es), code, c);
  }

  /** The letter a, n times. */
  function LettersTyped(n: nat): seq<Event> {
    if n == 0 then [] else LettersTyped(n - 1) + [Scan(A_PRESS)]
  }

  function Letters(n: nat): (keys: seq<byte>)
    ensures |keys| == n && BACKSPACE !in keys && NEWLINE !in keys
  {
    if n == 0 then [] else Letters(n - 1) + [LETTER_A]
  }

  lemma OneMoreLetter(st: State, es: seq<Event>, keys: seq<byte>)
    requires Ok(st) && HasTyped(st, es, keys)
    ensures HasTyped(st, es + [Scan(A_PRESS)], keys + [LETTER_A])
  {
    PlainKeys();
    OneMorePlain(st, es, keys, A_PRESS, LETTER_A);
  }

  lemma {:induction false} LettersAreDelivered(st: State, n: nat)
    requires Ok(st) && st.flags == NO_FLAGS
    ensures HasTyped(st, LettersTyped(n), Letters(n))
  {
    if n > 0 {
      LettersAreDelivered(st, n - 1);
      OneMoreLetter(st, LettersTyped(n - 1), Letters(n - 1));
    }
  }

  lemma {:induction false} BeforeEnterIsAll(keys: seq<byte>)
    requires NEWLINE !in keys
    ensures BeforeEnter(keys) == keys && BeforeEnter(keys + [NEWLINE]) == keys
  {
    if keys != [] {
      BeforeEnterIsAll(keys[1..]);
    }
    BeforeEnterOfMore(keys, NEWLINE);
  }

  /** The letter a, n times, and Enter. */
  function LineTyped(n: nat): seq<Event> { LettersTyped(n) + [Scan(ENTER_PRESS)] }

  lemma LineIsRead(st: State, n: nat)
    requires Ok(st) && st.flags == NO_FLAGS && st.lines[st.active].currentChar == 0 && !st.lines[st.active].enterFlag
    requires n < MAX_LINE
    ensures Run(st, LineTyped(n)).flags == NO_FLAGS && Run(st, LineTyped(n)).active == st.active
    ensures ReadLine(Run(st, LineTyped(n)).lines[st.active]).0 == Letters(n) + [NEWLINE]
  {
    LettersAreDelivered(st, n);
    PlainKeys();
    OneMorePlain(st, LettersTyped(n), Letters(n), ENTER_PRESS, NEWLINE);
    ReadReturnsEditedLine(st, LineTyped(n), st.active);
    BeforeEnterIsAll(Letters(n));
    EditWithoutBackspace([], Letters(n));
    assert [] + Letters(n) == Letters(n);
  }

  lemma EnterAlone(st: State)
    requires Ok(st) && st.flags == NO_FLAGS
    ensures BeforeEnter(KeysFor(st, [Scan(ENTER_PRESS)], st.active)) == []
  {
    PlainKeys();
    assert [] + [Scan(ENTER_PRESS)] == [Scan(ENTER_PRESS)];
    OneMorePlain(st, [], [], ENTER_PRESS, NEWLINE);
  }

  /**
    There need not be room: n letters and Enter, a read, and Enter and a read again fill all 129
    bytes, so that the next read is out of bounds, if the letters were 127.
   */
  lemma ThirdReadOverruns(st: State, n: nat)
    requires Ok(st) && st.flags == NO_FLAGS && st.lines[st.active].currentChar == 0 && !st.lines[st.active].enterFlag
    requires n < MAX_LINE
    ensures var st1 := AfterRead(Run(st, LineTyped(n)), st.active);
      Ok(st1) && (Ok(AfterRead(Run(st1, [Scan(ENTER_PRESS)]), st.active)) <==> n < MAX_LINE - 1)
  {
    LineIsRead(st, n);
    SecondRead(st, LineTyped(n), st.active, [Scan(ENTER_PRESS)]);
    EnterAlone(AfterRead(Run(st, LineTyped(n)), st.active));
  }

  // ---------------------------------------------------------------- modifiers over a run

  /** Whether a key is down after an event. */
  predicate Down(e: Event, press: byte, release: byte, before: bool) {
    if e == Scan(press) then true else if e == Scan(release) then false else before
  }

  /** Whether a key is down after a run: whether it was pressed after it was last let go. */
  predicate IsDown(es: seq<Event>, press: byte, release: byte, before: bool) {
    if es == [] then before
    else Down(es[|es| - 1], press, release, IsDown(es[..|es| - 1], press, release, before))
  }

  function Presses(es: seq<Event>, code: byte): nat {
    if es == [] then 0 else Presses(es[..|es| - 1], code) + if es[|es| - 1] == Scan(code) then 1 else 0
  }

  function FlagsAfter(f: Flags, e: Event): Flags {
    Flags(f.caps != (e == Scan(CAPS_LOCK)), Down(e, L_SHIFT_PRESS, L_SHIFT_RELEASE, f.lShift),
          Down(e, R_SHIFT_PRESS, R_SHIFT_RELEASE, f.rShift), Down(e, CTRL_PRESS, CTRL_RELEASE, f.ctrl),
          Down(e, ALT_PRESS, ALT_RELEASE, f.alt))
  }

  lemma DecodedFlags(f: Flags, scan: byte)
    ensures FlagsAfter(f, Scan(scan)) == if Decode(f, scan).Modifier? then Decode(f, scan).flags else f
  {
  }

  lemma StepFlags(st: State, e: Event)
    requires Ok(st)
    ensures Step(st, e).flags == FlagsAfter(st.flags, e)
  {
    if e.Scan? {
      DecodedFlags(st.flags, e.code);
    }
  }

  lemma RunFlags(st: State, es: seq<Event>, before: seq<Event>, e: Event)
    requires Ok(st) && es != [] && before == es[..|es| - 1] && e == es[|es| - 1]
    ensures Run(st, es).flags == FlagsAfter(Run(st, before).flags, e)
  {
    StepFlags(Run(st, before), e);
  }

  lemma OnePressMore(es: seq<Event>, before: seq<Event>, e: Event, code: byte)
    requires es != [] && before == es[..|es| - 1] && e == es[|es| - 1]
    ensures (Presses(es, code) % 2 == 1) == ((Presses(before, code) % 2 == 1) != (e == Scan(code)))
  {
  }

  lemma {:induction false} CapsFollowsPresses(st: State, es: seq<Event>)
    requires Ok(st)
    ensures Run(st, es).flags.caps == (st.flags.caps != (Presses(es, CAPS_LOCK) % 2 == 1))
  {
    if es != [] {
      var before, e := es[..|es| - 1], es[|es| - 1];
      CapsFollowsPresses(st, before);
      RunFlags(st, es, before, e);
      OnePressMore(es, before, e, CAPS_LOCK);
    }
  }

  /** The modifier keys that are down after a run, as the flags say and as the keys say. */
  predicate FlagsMatch(f: Flags, before: Flags, es: seq<Event>) {
    && f.lShift == IsDown(es, L_SHIFT_PRESS, L_SHIFT_RELEASE, before.lShift)
    && f.rShift == IsDown(es, R_SHIFT_PRESS, R_SHIFT_RELEASE, before.rShift)
    && f.ctrl == IsDown(es, CTRL_PRESS, CTRL_RELEASE, before.ctrl)
    && f.alt == IsDown(es, ALT_PRESS, ALT_RELEASE, before.alt)
  }

  /** The flags always say which modifier keys are down and whether caps lock was pressed an odd number of times. */
  lemma {:induction false} FlagsFollowKeys(st: State, es: seq<Event>)
    requires Ok(st)
    ensures FlagsMatch(Run(st, es).flags, st.flags, es)
    ensures Run(st, es).flags.caps == (st.flags.caps != (Presses(es, CAPS_LOCK) % 2 == 1))
  {
    CapsFollowsPresses(st, es);
    if es != [] {
      FlagsFollowKeys(st, es[..|es| - 1]);
      StepFlags(Run(st, es[..|es| - 1]), es[|es| - 1]);
    }
  }

  // ---------------------------------------------------------------- the driver

  class Keyboard {
    var capsLockFlag: bool
    var lShiftFlag: bool
    var rShiftFlag: bool
    var ctrlFlag: bool
    var altFlag: bool
    var activeTerminal: nat
    const terminals: array<Line>

    ghost function Now(): State
      reads this, terminals
    {
      State(Flags(capsLockFlag, lShiftFlag, rShiftFlag, ctrlFlag, altFlag), activeTerminal, terminals[..])
    }

    /** No modifier is down, and every line is empty. */
    constructor ()
      ensures fresh(terminals) && Ok(Now()) && Now().flags == Flags(false, false, false, false, false)
      ensures forall t :: 0 <= t < Paging.MAX_TERMINALS ==> Holds(Now().lines[t], [], [])
    {
      capsLockFlag, lShiftFlag, rShiftFlag, ctrlFlag, altFlag := false, false, false, false, false;
      activeTerminal := 0;
      terminals := new Line[Paging.MAX_TERMINALS](_ => Line(seq(MAX_LINE + 1, _ => NUL), 0, false, 0, 0, false));
    }

    method UpdateKbBuffer(input: byte)
      requires Ok(Now())
      modifies terminals
      ensures Now() == old(Now()).(lines := old(Now()).lines[activeTerminal :=
                         Updated(old(Now()).lines[activeTerminal], input)])
    {
      var t := activeTerminal;
      if input == NEWLINE || terminals[t].enterFlag {
        terminals[t] := terminals[t].(enterFlag := true);
        terminals[t] := terminals[t].(charInLine := 0);
      } else if input == BACKSPACE {
        if terminals[t].currentChar > 0 {
          terminals[t] := terminals[t].(currentChar := terminals[t].currentChar - 1);
        }
        var buffer := terminals[t].keyboardBuffer;
        terminals[t] := terminals[t].(keyboardBuffer := buffer[terminals[t].currentChar := NUL]);
      } else if terminals[t].currentChar >= MAX_LINE - 1 {
        return;
      } else {
        var buffer := terminals[t].keyboardBuffer;
        terminals[t] := terminals[t].(keyboardBuffer := buffer[terminals[t].currentChar := input]);
        terminals[t] := terminals[t].(currentChar := terminals[t].currentChar + 1);
      }
    }

    /** The tab key: the same update four times. */
    method TypeTab()
      requires Ok(Now())
      modifies terminals
      ensures Now() == old(Now()).(lines := old(Now()).lines[activeTerminal :=
                         UpdatedAll(old(Now()).lines[activeTerminal], Spaces(TAB_SPACES))])
    {
      ghost var st := Now();
      ghost var goal := UpdatedAll(st.lines[activeTerminal], Spaces(TAB_SPACES));
      var i := 0;
      while i < TAB_SPACES
        invariant 0 <= i <= TAB_SPACES
        invariant Ok(Now()) && Now() == st.(lines := st.lines[activeTerminal := terminals[activeTerminal]])
        invariant UpdatedAll(terminals[activeTerminal], Spaces(TAB_SPACES - i)) == goal
      {
        UpdateKbBuffer(SPACE);
        i := i + 1;
      }
    }

    /** keyboard_handler, for a scan code that has arrived. */
    method Handler(scanCode: byte)
      requires Ok(Now())
      modifies this, terminals
      ensures Now() == Handled(old(Now()), scanCode)
    {
      if scanCode == CAPS_LOCK {
        capsLockFlag := !capsLockFlag;
      } else if scanCode == L_SHIFT_PRESS {
        lShiftFlag := true;
      } else if scanCode == R_SHIFT_PRESS {
        rShiftFlag := true;
      } else if scanCode == L_SHIFT_RELEASE {
        lShiftFlag := false;
      } else if scanCode == R_SHIFT_RELEASE {
        rShiftFlag := false;
      } else if scanCode == CTRL_PRESS {
        ctrlFlag := true;
      } else if scanCode == CTRL_RELEASE {
        ctrlFlag := false;
      } else if scanCode == ALT_PRESS {
        altFlag := true;
      } else if scanCode == ALT_RELEASE {
        altFlag := false;
      } else if scanCode == L_PRESS && ctrlFlag {
        var l := terminals[activeTerminal];
        terminals[activeTerminal] := l.(resetFlag := true, currentLine := 0, charInLine := 0);
      } else if altFlag && F1_PRESS <= scanCode <= F3_PRESS {
        activeTerminal := scanCode - F1_PRESS;
      } else if scanCode == TAB_PRESS {
        TypeTab();
      } else if scanCode <= NUM_SCAN_CODES {
        TypeChar(scanCode);
      } else {
        assert UpdatedAll(terminals[activeTerminal], []) == terminals[activeTerminal];
      }
    }

    /** Any other key: its character is looked up. The tables have no entry for code 58, but that is caps lock. */
    method TypeChar(scanCode: byte)
      requires Ok(Now()) && scanCode < NUM_SCAN_CODES
      modifies terminals
      ensures Now() == old(Now()).(lines := old(Now()).lines[activeTerminal :=
                         UpdatedAll(old(Now()).lines[activeTerminal], [CharOf(old(Now()).flags, scanCode)])])
    {
      var useCaps := lShiftFlag || rShiftFlag;
      if IsLetterKey(scanCode) {
        useCaps := useCaps != capsLockFlag;
      }
      var outputChar: byte;
      if useCaps {
        outputChar := UPPERCASE[scanCode] as int % 0x100;
      } else {
        outputChar := LOWERCASE[scanCode] as int % 0x100;
      }
      UpdatedOnce(terminals[activeTerminal], outputChar);
      UpdateKbBuffer(outputChar);
    }

    /** The end of terminal_read, once the wait for Enter is over. The size the caller gives is not looked at. */
    method TerminalRead(buf: array<byte>) returns (n: nat)
      requires Ok(Now()) && terminals[activeTerminal].enterFlag && terminals[activeTerminal].currentChar < buf.Length
      modifies terminals, buf
      ensures Now() == AfterRead(old(Now()), activeTerminal)
      ensures n <= buf.Length && buf[..n] == ReadLine(old(Now()).lines[activeTerminal]).0
      ensures forall k :: n <= k < buf.Length ==> buf[k] == old(buf[k])
    {
      var t := activeTerminal;
      terminals[t] := terminals[t].(enterFlag := false);
      var buffer := terminals[t].keyboardBuffer;
      terminals[t] := terminals[t].(keyboardBuffer := buffer[terminals[t].currentChar := NEWLINE]);
      terminals[t] := terminals[t].(currentChar := terminals[t].currentChar + 1);
      ghost var st := Now();
      n := 0;
      while n < terminals[t].currentChar
        invariant Now() == st && n <= terminals[t].currentChar
        invariant buf[..n] == terminals[t].keyboardBuffer[..n]
        invariant forall k :: n <= k < buf.Length ==> buf[k] == old(buf[k])
      {
        buf[n] := terminals[t].keyboardBuffer[n];
        n := n + 1;
      }
    }

    /** The part of terminal_write that empties the line being typed on terminal t. */
    method EmptyLine(t: nat)
      requires Ok(Now()) && t < Paging.MAX_TERMINALS
      modifies terminals
      ensures Ok(Now()) && Now() == old(Now()).(lines := old(Now()).lines[t := terminals[t]])
      ensures terminals[t].currentChar == 0 && terminals[t].enterFlag == old(terminals[t]).enterFlag
      ensures terminals[t].currentLine == (old(terminals[t]).currentLine
                                           + if old(terminals[t]).currentChar > 0 then 1 else 0) % 256
      ensures terminals[t].charInLine == old(terminals[t]).charInLine
              && terminals[t].resetFlag == old(terminals[t]).resetFlag
      ensures !terminals[t].enterFlag ==> Holds(terminals[t], [], [])
      ensures forall k :: 0 <= k < MAX_LINE ==> terminals[t].keyboardBuffer[k] == NUL
    {
      var i := 0;
      ghost var st := Now();
      while i < MAX_LINE
        invariant 0 <= i <= MAX_LINE && Ok(Now())
        invariant Now() == st.(lines := st.lines[t := terminals[t]])
        invariant terminals[t] == st.lines[t].(keyboardBuffer := terminals[t].keyboardBuffer)
        invariant forall k :: 0 <= k < i ==> terminals[t].keyboardBuffer[k] == NUL
      {
        terminals[t] := terminals[t].(keyboardBuffer := terminals[t].keyboardBuffer[i := NUL]);
        i := i + 1;
      }
      if terminals[t].currentChar > 0 {
        terminals[t] := terminals[t].(currentLine := (terminals[t].currentLine + 1) % 0x100);
        terminals[t] := terminals[t].(currentChar := 0);
      }
    }
  }

  lemma UpdatedOnce(l: Line, c: byte)
    requires LineOk(l)
    ensures UpdatedAll(l, [c]) == Updated(l, c)
  {
    assert UpdatedAll(Updated(l, c), []) == Updated(l, c);
  }
}
