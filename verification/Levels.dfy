/**
 The names of log levels and the parser that reads them. `bytes.ToLower` is a parameter: what it
 does to text that is not ASCII is left to it.
 */
module Levels {
  import opened Utf8
  import opened JsonText
  import opened JsonRendering
  import opened JsonEntry
  import Cores
  import Logger
  import Sampler

  /** The bytes of an ASCII text. */
  function Ascii(s: string): (t: Bytes)
    requires forall i :: 0 <= i < |s| ==> s[i] as int < 128
    ensures |t| == |s|
  {
    seq(|s|, i requires 0 <= i < |s| => s[i] as int)
  }

  /** `Level.unmarshalText`. */
  function Exactly(text: Bytes): (level: Option<int>) {
    if text == Ascii("debug") then Some(-1)
    else if text == Ascii("info") || text == [] then Some(0)
    else if text == Ascii("warn") || text == Ascii("warning") then Some(1)
    else if text == Ascii("error") then Some(2)
    else if text == Ascii("dpanic") then Some(3)
    else if text == Ascii("panic") then Some(4)
    else if text == Ascii("fatal") then Some(5)
    else None
  }

  /** `ParseLevel`. */
  function Parse(lower: Bytes -> Bytes, text: Bytes): (level: Option<int>) {
    if Exactly(text).Some? then Exactly(text) else Exactly(lower(text))
  }

  function LowerByte(b: Byte): (r: Byte) {
    if 0x41 <= b <= 0x5A then b + 0x20 else b
  }

  predicate IsAscii(text: Bytes) {
    forall b :: b in text ==> b < 0x80
  }

  function Lowered(text: Bytes): (r: Bytes) {
    seq(|text|, i requires 0 <= i < |text| => LowerByte(text[i]))
  }

  ghost predicate LowersAscii(lower: Bytes -> Bytes) {
    forall text :: IsAscii(text) ==> lower(text) == Lowered(text)
  }

  predicate Named(level: int) {
    -1 <= level <= 5
  }

  /** The text of a level: its lower-case name, or its number for those that have none. */
  predicate NamesLevel(text: Bytes, level: int) {
    if Named(level)
    then
      && text != []
      && (forall b :: b in text ==> 0x61 <= b <= 0x7A)
      && Exactly(text) == Some(level)
      && text != Ascii("warning")
    else
      && |text| > 7
      && text[..6] == Ascii("Level(")
      && Decimal(text[6..|text| - 1], level)
      && text[|text| - 1] == 0x29
  }

  lemma Spelling()
    ensures Ascii("debug") == LevelName(-1)
    ensures Ascii("info") == LevelName(0)
    ensures Ascii("warn") == LevelName(1)
    ensures Ascii("error") == LevelName(2)
    ensures Ascii("dpanic") == LevelName(3)
    ensures Ascii("panic") == LevelName(4)
    ensures Ascii("fatal") == LevelName(5)
  {
  }

  lemma LevelNames(level: int)
    ensures NamesLevel(LevelName(level), level)
  {
    var text := LevelName(level);
    if Named(level) {
      SevenNames(level);
    } else {
      IntTextValue(level);
      assert text[..6] == Ascii("Level(");
      assert text[6..|text| - 1] == IntText(level);
    }
  }

  lemma SevenNames(level: int)
    requires Named(level)
    ensures Exactly(LevelName(level)) == Some(level)
  {
    Spelling();
    var text := LevelName(level);
    assert text[0] == [0x64, 0x69, 0x77, 0x65, 0x64, 0x70, 0x66][level + 1];
  }

  /** No two levels have the same text, and no text is trusted to be one that is not. */
  lemma NamesAreDistinct(text: Bytes, a: int, b: int)
    requires NamesLevel(text, a) && NamesLevel(text, b)
    ensures a == b
  {
    if !Named(a) || !Named(b) {
      assert 0x4C == Ascii("Level(")[0];
      if !Named(a) { assert text[0] == text[..6][0] == 0x4C; }
      if !Named(b) { assert text[0] == text[..6][0] == 0x4C; }
      if !Named(a) && !Named(b) {
        OneValuePerText(text[6..|text| - 1], a, b);
      }
    }
  }

  lemma OneValuePerText(t: Bytes, a: int, b: int)
    requires Decimal(t, a) && Decimal(t, b)
    ensures a == b
  {
    assert t[0] in t;
  }

  /** The parser gives back each of the seven levels from its name, whatever the case of its letters. */
  lemma NamesReadBack(lower: Bytes -> Bytes, text: Bytes, level: int)
    requires LowersAscii(lower) && IsAscii(text) && Named(level)
    requires Lowered(text) == LevelName(level)
    ensures Parse(lower, text) == Some(level)
  {
    SevenNames(level);
    hide LevelName;
    if Exactly(text).Some? {
      ExactlyIsLower(text);
    }
  }

  lemma ExactlyIsLower(text: Bytes)
    requires Exactly(text).Some?
    ensures Lowered(text) == text
  {
  }

  lemma FirstLetter(text: Bytes)
    ensures Exactly(text).Some? && text != [] ==> text[0] in [0x64, 0x69, 0x77, 0x65, 0x70, 0x66]
  {
    Spelling();
    if Exactly(text).Some? && text != [] {
      assert text[0] == 0x64 || text[0] == 0x69 || text[0] == 0x77 || text[0] == 0x65 || text[0] == 0x70
          || text[0] == 0x66;
    }
  }

  lemma NumberedText(level: int)
    requires !Named(level)
    ensures var text := LevelName(level); text != [] && text[0] == 0x4C && IsAscii(text)
  {
    IntTextValue(level);
  }

  /** It refuses the text of every other level. */
  lemma NumbersAreRefused(lower: Bytes -> Bytes, level: int)
    requires LowersAscii(lower) && !Named(level)
    ensures Parse(lower, LevelName(level)) == None
  {
    hide Exactly, LevelName;
    var text := LevelName(level);
    NumberedText(level);
    FirstLetter(text);
    assert lower(text)[0] == 0x6C;
    FirstLetter(lower(text));
  }

  /** The levels that cores, sampler and logger tell apart, by name. */
  lemma LevelConstants()
    ensures Exactly(Ascii("info")) == Some(Cores.INFO_LEVEL)
    ensures Exactly(Ascii("error")) == Some(Cores.ERROR_LEVEL)
    ensures Exactly(Ascii("debug")) == Some(Sampler.MIN_LEVEL)
    ensures Exactly(Ascii("dpanic")) == Some(Logger.DPANIC_LEVEL)
    ensures Exactly(Ascii("panic")) == Some(Logger.PANIC_LEVEL)
    ensures Exactly(Ascii("fatal")) == Some(Logger.FATAL_LEVEL) == Some(Sampler.MAX_LEVEL)
    ensures Sampler.NUM_LEVELS == Sampler.MAX_LEVEL - Sampler.MIN_LEVEL + 1
  {
    Spelling();
    SevenNames(-1);
    SevenNames(0);
    SevenNames(2);
    SevenNames(3);
    SevenNames(4);
    SevenNames(5);
  }
}
