/** The notions of white space that the components trim by, compared. */
module Blanks {
  import FixedWidth
  import Framing
  import StatementSplitter

  /** JavaScript's `trim` takes the byte order mark and leaves NEL; the daemon's takes NEL and leaves the mark. */
  lemma TrimsDiffer(c: char)
    ensures StatementSplitter.IsBlank(c) != FixedWidth.IsWhitespace(c) <==> c as int == 0x85 || c as int == 0xFEFF
    ensures StatementSplitter.IsBlank(c) ==> c as int != 0x85
  {}

  /** On the bytes of a frame's line, all of them ASCII, both are the six blanks of ASCII. */
  lemma TrimsAgreeOnAscii(c: char)
    requires c as int < 0x80
    ensures Framing.IsSpace(c) <==> c in {' ', '\t', '\n', '\r'} || c as int in {0x0B, 0x0C}
    ensures Framing.IsSpace(c) == StatementSplitter.IsBlank(c) == FixedWidth.IsWhitespace(c)
  {}
}
