/**
 * The file-backed reader of librgb/file_reader.py. The file is an immutable
 * byte sequence; the reader keeps the file position that `seek` and `read` move.
 */
module FileReader {
  import opened Base
  import MemoryReader

  /** What `seek` raises for a negative position. */
  datatype Error = InvalidSeek

  /**
   * `read(size)` from position `pos`: up to `size` bytes, or everything up to the end
   * of the file when `size` is negative.
   */
  function ReadFrom(content: seq<byte>, pos: nat, size: int): (data: seq<byte>)
    ensures var left := if pos < |content| then |content| - pos else 0;
            |data| == if size < 0 || size > left then left else size
    ensures forall k :: 0 <= k < |data| ==> data[k] == content[pos + k]
  {
    var from := if pos < |content| then pos else |content|;
    var to := if size < 0 || from + size > |content| then |content| else from + size;
    content[from..to]
  }

  /**
   * `get_padded_bytes(address, size)`: the bytes of the file from `address`,
   * followed by zeros up to `size` bytes.
   */
  function PaddedSlice(content: seq<byte>, address: nat, size: int): (r: seq<byte>)
    ensures size >= 0 ==> |r| == size
    ensures size >= 0 ==> forall i :: 0 <= i < size ==>
              r[i] == if address + i < |content| then content[address + i] else 0
    ensures size < 0 ==> r == if address < |content| then content[address..] else []
  {
    var data := ReadFrom(content, address, size);
    data + Zeros(if size - |data| < 0 then 0 else size - |data|)
  }

  /** An address at or past the end of the file reads as zeros only. */
  lemma PastEndIsZero(content: seq<byte>, address: nat, size: nat)
    requires address >= |content|
    ensures PaddedSlice(content, address, size) == Zeros(size)
  {
  }

  class FileReader {
    /** The whole file. */
    const content: seq<byte>
    /** The file size measured at construction (`seek(0, SEEK_END)`, `tell()`). */
    const maxAddress: int
    /** The current file position. */
    var position: int

    constructor (content: seq<byte>)
      ensures this.content == content && maxAddress == |content| && position == 0
    {
      this.content := content;
      maxAddress := |content|;
      position := 0;
    }

    /** `min_address`: files start at offset 0. */
    function MinAddress(): int { 0 }

    /** `get_padded_bytes`: seek, read, pad; a negative address makes `seek` raise. */
    method GetPaddedBytes(address: int, size: int) returns (r: Result<seq<byte>, Error>)
      modifies this
      ensures address < 0 ==> r == Err(InvalidSeek) && position == old(position)
      ensures address >= 0 ==> r == Ok(PaddedSlice(content, address, size))
      ensures address >= 0 ==> position == address + |ReadFrom(content, address, size)|
    {
      if address < 0 {
        return Err(InvalidSeek);
      }
      position := address;
      var data := ReadFrom(content, position, size);
      position := position + |data|;
      data := data + Zeros(if size - |data| < 0 then 0 else size - |data|);
      r := Ok(data);
    }
  }

  // ---------------------------------------------------------------------------
  // translate_address: '%08x' % address

  predicate IsHexDigit(c: char)
  {
    '0' <= c <= '9' || 'a' <= c <= 'f'
  }

  function HexDigit(d: nat): (c: char)
    requires d < 16
    ensures IsHexDigit(c)
  {
    if d < 10 then ('0' as int + d) as char else ('a' as int + d - 10) as char
  }

  function DigitValue(c: char): (d: nat)
    requires IsHexDigit(c)
    ensures d < 16 && HexDigit(d) == c
  {
    if c <= '9' then c as int - '0' as int else c as int - 'a' as int + 10
  }

  /** The value of a string of lower-case hex digits, as `int(text, 16)` reads it. */
  function HexValue(s: string): nat
    requires forall i :: 0 <= i < |s| ==> IsHexDigit(s[i])
  {
    if s == [] then 0 else HexValue(s[..|s| - 1]) * 16 + DigitValue(s[|s| - 1])
  }

  /** The shortest lower-case hex spelling of `n`. */
  function Hex(n: nat): (s: string)
    ensures |s| >= 1
    ensures forall i :: 0 <= i < |s| ==> IsHexDigit(s[i])
  {
    if n < 16 then [HexDigit(n)] else Hex(n / 16) + [HexDigit(n % 16)]
  }

  function ZeroPad(s: string, width: nat): (r: string)
    ensures |r| == if |s| < width then width else |s|
    ensures r[|r| - |s|..] == s
    ensures forall i :: 0 <= i < |r| - |s| ==> r[i] == '0'
  {
    if |s| < width then seq(width - |s|, _ => '0') + s else s
  }

  /** `'%08x' % address`: lower-case hex, zero-padded to 8 characters including a sign. */
  function TranslateAddress(address: int): (r: string)
    ensures |r| >= 8
    ensures address >= 0 ==> forall i :: 0 <= i < |r| ==> IsHexDigit(r[i])
    ensures address < 0 ==> r[0] == '-'
  {
    if address >= 0 then ZeroPad(Hex(address), 8) else "-" + ZeroPad(Hex(-address), 7)
  }

  lemma {:induction false} HexRoundTrip(n: nat)
    ensures HexValue(Hex(n)) == n
  {
    if n >= 16 {
      var s := Hex(n);
      assert s[..|s| - 1] == Hex(n / 16);
      assert DigitValue(s[|s| - 1]) == n % 16 by {
        assert s[|s| - 1] == HexDigit(n % 16);
      }
      HexRoundTrip(n / 16);
    }
  }

  lemma {:induction false} ZerosValue(k: nat)
    ensures HexValue(seq(k, _ => '0')) == 0
  {
    if k > 0 {
      var z := seq(k, _ => '0');
      assert z[..k - 1] == seq(k - 1, _ => '0');
      ZerosValue(k - 1);
    }
  }

  lemma {:induction false} LeadingZerosIgnored(k: nat, s: string)
    requires forall i :: 0 <= i < |s| ==> IsHexDigit(s[i])
    ensures HexValue(seq(k, _ => '0') + s) == HexValue(s)
    decreases |s|
  {
    var z := seq(k, _ => '0');
    if s == [] {
      assert z + s == z;
      ZerosValue(k);
    } else {
      var init := s[..|s| - 1];
      var t := z + s;
      assert t[..|t| - 1] == z + init;
      assert t[|t| - 1] == s[|s| - 1];
      LeadingZerosIgnored(k, init);
      assert HexValue(t) == HexValue(z + init) * 16 + DigitValue(s[|s| - 1]);
    }
  }

  /** The printed address reads back, through `int(text, 16)`, as the address. */
  lemma TranslateAddressRoundTrip(address: int)
    ensures address >= 0 ==> HexValue(TranslateAddress(address)) == address
    ensures address < 0 ==> var digits := TranslateAddress(address)[1..];
              (forall i :: 0 <= i < |digits| ==> IsHexDigit(digits[i]))
              && HexValue(digits) == -address
  {
    var n := if address >= 0 then address else -address;
    var w := if address >= 0 then 8 else 7;
    var h := Hex(n);
    HexRoundTrip(n);
    var k := if |h| < w then w - |h| else 0;
    var zeros := seq(k, _ => '0');
    assert ZeroPad(h, w) == zeros + h;
    LeadingZerosIgnored(k, h);
    if address < 0 {
      var digits := TranslateAddress(address)[1..];
      assert digits == zeros + h;
      forall i | 0 <= i < |digits| ensures IsHexDigit(digits[i]) {
        if i < k {
          assert digits[i] == zeros[i];
        } else {
          assert digits[i] == h[i - k];
        }
      }
    }
  }

  // ---------------------------------------------------------------------------
  // The file as a one-segment address space

  /** The file as an IDA-style database: every byte loaded, zeros past the end. */
  function FileDatabase(content: seq<byte>): MemoryReader.Database
  {
    MemoryReader.Database(a => if 0 <= a < |content| then content[a] else 0, _ => true)
  }

  /** The file as a segment table: one segment `[0, len)`. */
  function FileSegments(content: seq<byte>): seq<MemoryReader.Segment>
  {
    [MemoryReader.Segment(0, |content|, false)]
  }

  /**
   * For a non-negative address and size, the file reader returns what the segmented
   * reader returns for the single segment `[0, len)` and a fetch that never fails.
   */
  lemma FileReadIsSingleSegmentRead(content: seq<byte>, address: nat, size: nat)
    ensures var ranges := MemoryReader.KeptRanges(FileSegments(content));
      && MemoryReader.AllLoaded(ranges, FileDatabase(content), address, size)
      && MemoryReader.Expected(ranges, FileDatabase(content), address, size)
         == PaddedSlice(content, address, size)
  {
    var ranges := MemoryReader.KeptRanges(FileSegments(content));
    assert ranges == [MemoryReader.MemoryRange(0, |content|)];
    forall a | address <= a < address + size
      ensures MemoryReader.Covered(ranges, a) <==> a < |content|
    {
      if a < |content| {
        assert ranges[0].Contains(a);
      }
    }
  }
}
