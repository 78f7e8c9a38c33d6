// How text turns into mojibake: a string is encoded as UTF-8 and the bytes
// are read back as Windows-1252, where the five bytes that code page leaves
// undefined (0x81, 0x8D, 0x8F, 0x90, 0x9D) produce nothing.

module TextEncoding {

  /** The UTF-8 bytes of one character. */
  function Utf8(c: char): (r: seq<int>)
    ensures 1 <= |r| <= 4
    ensures forall i :: 0 <= i < |r| ==> 0 <= r[i] < 0x100
  {
    var cp := c as int;
    if cp < 0x80 then [cp]
    else if cp < 0x800 then [0xC0 + cp / 0x40, 0x80 + cp % 0x40]
    else if cp < 0x10000 then [0xE0 + cp / 0x1000, 0x80 + (cp / 0x40) % 0x40, 0x80 + cp % 0x40]
    else [0xF0 + cp / 0x40000, 0x80 + (cp / 0x1000) % 0x40, 0x80 + (cp / 0x40) % 0x40, 0x80 + cp % 0x40]
  }

  /** The characters Windows-1252 gives the bytes 0x80 to 0x9F; 0 marks an
      undefined byte. Every other byte stands for the character with the
      same number. */
  const HighHalf: seq<int> := [
    0x20AC, 0, 0x201A, 0x0192, 0x201E, 0x2026, 0x2020, 0x2021,
    0x02C6, 0x2030, 0x0160, 0x2039, 0x0152, 0, 0x017D, 0,
    0, 0x2018, 0x2019, 0x201C, 0x201D, 0x2022, 0x2013, 0x2014,
    0x02DC, 0x2122, 0x0161, 0x203A, 0x0153, 0, 0x017E, 0x0178]

  function Windows1252(b: int): (r: string)
    requires 0 <= b < 0x100
    ensures |r| <= 1
  {
    if 0x80 <= b < 0xA0 then
      (if HighHalf[b - 0x80] == 0 then [] else [HighHalf[b - 0x80] as char])
    else [b as char]
  }

  function DecodeBytes(bs: seq<int>): string
    requires forall i :: 0 <= i < |bs| ==> 0 <= bs[i] < 0x100
  {
    if bs == [] then [] else Windows1252(bs[0]) + DecodeBytes(bs[1..])
  }

  /** `s` encoded as UTF-8 and decoded as Windows-1252. */
  function Misread(s: string): string {
    if s == [] then [] else DecodeBytes(Utf8(s[0])) + Misread(s[1..])
  }

  /** Misreading works character by character. */
  lemma {:induction false} MisreadConcat(s: string, t: string)
    ensures Misread(s + t) == Misread(s) + Misread(t)
  {
    if s == [] {
      assert s + t == t;
    } else {
      assert (s + t)[0] == s[0];
      assert (s + t)[1..] == s[1..] + t;
      MisreadConcat(s[1..], t);
      calc {
        Misread(s + t);
        DecodeBytes(Utf8(s[0])) + Misread(s[1..] + t);
        DecodeBytes(Utf8(s[0])) + (Misread(s[1..]) + Misread(t));
        (DecodeBytes(Utf8(s[0])) + Misread(s[1..])) + Misread(t);
      }
    }
  }

  lemma MisreadOne(c: char)
    ensures Misread([c]) == DecodeBytes(Utf8(c))
  {
    assert Misread([c]) == DecodeBytes(Utf8(c)) + Misread([]);
  }

  lemma Decode3(b0: int, b1: int, b2: int)
    requires 0 <= b0 < 0x100 && 0 <= b1 < 0x100 && 0 <= b2 < 0x100
    ensures DecodeBytes([b0, b1, b2]) == Windows1252(b0) + Windows1252(b1) + Windows1252(b2)
  {
    assert [b0, b1, b2][1..] == [b1, b2];
    assert [b1, b2][1..] == [b2];
    assert DecodeBytes([b2]) == Windows1252(b2) + DecodeBytes([]);
  }

  lemma Decode4(b0: int, b1: int, b2: int, b3: int)
    requires 0 <= b0 < 0x100 && 0 <= b1 < 0x100 && 0 <= b2 < 0x100 && 0 <= b3 < 0x100
    ensures DecodeBytes([b0, b1, b2, b3]) ==
            Windows1252(b0) + Windows1252(b1) + Windows1252(b2) + Windows1252(b3)
  {
    var bs := [b0, b1, b2, b3];
    assert bs[0] == b0 && bs[1..] == [b1, b2, b3];
    assert DecodeBytes(bs) == Windows1252(b0) + DecodeBytes([b1, b2, b3]);
    Decode3(b1, b2, b3);
  }

  /** A character outside the basic multilingual plane misreads as its four
      bytes, each decoded on its own. */
  lemma MisreadAstral(c: char, b0: int, b1: int, b2: int, b3: int)
    requires c as int >= 0x10000
    requires Utf8(c) == [b0, b1, b2, b3]
    ensures Misread([c]) == Windows1252(b0) + Windows1252(b1) + Windows1252(b2) + Windows1252(b3)
  {
    MisreadOne(c);
    Decode4(b0, b1, b2, b3);
  }

  // ---------------------------------------------------------------------
  // The emoji the node icons use

  lemma MisreadMan()
    ensures Misread("\U{1F468}") == "\U{F0}\U{178}\U{2018}\U{A8}"
  {
    MisreadAstral('\U{1F468}', 0xF0, 0x9F, 0x91, 0xA8);
  }

  lemma MisreadGirl()
    ensures Misread("\U{1F467}") == "\U{F0}\U{178}\U{2018}\U{A7}"
  {
    MisreadAstral('\U{1F467}', 0xF0, 0x9F, 0x91, 0xA7);
  }

  lemma MisreadBoy()
    ensures Misread("\U{1F466}") == "\U{F0}\U{178}\U{2018}\U{A6}"
  {
    MisreadAstral('\U{1F466}', 0xF0, 0x9F, 0x91, 0xA6);
  }

  /** The zero-width joiner loses its last byte, 0x8D. */
  lemma MisreadJoiner()
    ensures Misread("\U{200D}") == "\U{E2}\U{20AC}"
  {
    var c := '\U{200D}';
    assert c as int == 0x200D;
    assert 0x200D / 0x1000 == 2 && (0x200D / 0x40) % 0x40 == 0 && 0x200D % 0x40 == 0x0D;
    assert Utf8(c) == [0xE2, 0x80, 0x8D];
    MisreadOne(c);
    Decode3(0xE2, 0x80, 0x8D);
  }

  lemma MisreadFamily()
    ensures Misread("\U{1F468}" + "\U{200D}" + "\U{1F467}" + "\U{200D}" + "\U{1F466}") ==
      "\U{F0}\U{178}\U{2018}\U{A8}" + "\U{E2}\U{20AC}" + "\U{F0}\U{178}\U{2018}\U{A7}" + "\U{E2}\U{20AC}" +
      "\U{F0}\U{178}\U{2018}\U{A6}"
  {
    var man, joiner, girl, boy := "\U{1F468}", "\U{200D}", "\U{1F467}", "\U{1F466}";
    MisreadMan();
    MisreadJoiner();
    MisreadGirl();
    MisreadBoy();
    MisreadConcat(man, joiner);
    MisreadConcat(man + joiner, girl);
    MisreadConcat(man + joiner + girl, joiner);
    MisreadConcat(man + joiner + girl + joiner, boy);
  }

  lemma MisreadBook()
    ensures Misread("\U{1F4D6}") == "\U{F0}\U{178}\U{201C}\U{2013}"
  {
    MisreadAstral('\U{1F4D6}', 0xF0, 0x9F, 0x93, 0x96);
  }

  /** The folded hands lose their last byte, 0x8F. */
  lemma MisreadHands()
    ensures Misread("\U{1F64F}") == "\U{F0}\U{178}\U{2122}"
  {
    MisreadAstral('\U{1F64F}', 0xF0, 0x9F, 0x99, 0x8F);
  }

  lemma MisreadCrown()
    ensures Misread("\U{1F451}") == "\U{F0}\U{178}\U{2018}\U{2018}"
  {
    MisreadAstral('\U{1F451}', 0xF0, 0x9F, 0x91, 0x91);
  }

  /** The globe loses its last byte, 0x90. */
  lemma MisreadGlobe()
    ensures Misread("\U{1F310}") == "\U{F0}\U{178}\U{152}"
  {
    MisreadAstral('\U{1F310}', 0xF0, 0x9F, 0x8C, 0x90);
  }

  lemma MisreadBust()
    ensures Misread("\U{1F464}") == "\U{F0}\U{178}\U{2018}\U{A4}"
  {
    MisreadAstral('\U{1F464}', 0xF0, 0x9F, 0x91, 0xA4);
  }
}
