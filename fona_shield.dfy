/** The cellular modem driver's line reader and its liveness check. The serial
    link is modelled by the bytes it holds (`rx`, oldest first); sending the
    command, the reset pulse and the baud-rate set-up are I/O and not modelled. */
module FonaShield {
  import opened CStrings

  /** Length of the reply buffer Init reads into (_max_line_length). */
  const MaxLineLength: int := 256

  /** The reply the modem gives to "AT" with echo on: the command echoed, a
      carriage return, then CR LF "OK" CR LF. */
  const ExpectedInitRes: string := "AT\r\r\nOK\r\n"

  /** How many bytes ReadLine moves out of a link holding `available` bytes
      into a buffer of `bufferLen` cells: it stops when the link is empty or
      when one cell is left for the NUL. */
  function LineLength(available: nat, bufferLen: int): (n: nat)
    requires bufferLen >= 2
    ensures n <= available && n <= bufferLen - 1
    ensures n == available || n == bufferLen - 1
  {
    if available < bufferLen - 1 then available else bufferLen - 1
  }

  /** Whether Init reports a live modem when the link holds `rx` as the line
      is read: the line, as strcmp sees it, is exactly the expected reply. */
  predicate InitAccepts(rx: seq<char>): (b: bool)
    ensures b ==> |rx| >= |ExpectedInitRes| && rx[..|ExpectedInitRes|] == ExpectedInitRes
  {
    CStr(rx[..LineLength(|rx|, MaxLineLength)]) == ExpectedInitRes
  }

  /** Init succeeds exactly when the link holds the nine reply bytes and
      nothing else, or the nine reply bytes followed by a NUL. */
  lemma InitAcceptsIff(rx: seq<char>)
    ensures InitAccepts(rx) <==>
      (rx == ExpectedInitRes || (|rx| >= 10 && rx[..10] == ExpectedInitRes + [NUL]))
  {
    var e := ExpectedInitRes;
    var line := rx[..LineLength(|rx|, MaxLineLength)];
    assert NUL !in e;
    if rx == e {
      CStrOfUnterminated(e);
    } else if |rx| >= 10 && rx[..10] == e + [NUL] {
      assert line == e + [NUL] + line[10..];
      CStrOfTerminated(e, line[10..]);
    }
  }

  class Shield {
    /** Bytes received from the modem and not read yet. */
    var rx: seq<char>

    constructor (received: seq<char>)
      ensures rx == received
    {
      rx := received;
    }

    /** Copies bytes from the link into buffer until the link is empty or
        bufferLen - 1 bytes are copied, then writes a NUL after them. With a
        one-cell buffer the source's stop test can never fire, so at least
        two cells are needed. */
    method ReadLine(buffer: array<char>, bufferLen: int)
      requires 2 <= bufferLen <= buffer.Length
      modifies this, buffer
      ensures var n := LineLength(|old(rx)|, bufferLen);
        && buffer[..n] == old(rx)[..n]
        && buffer[n] == NUL
        && buffer[n + 1..] == old(buffer[n + 1..])
        && rx == old(rx)[n..]
    {
      var i := 0;
      while rx != []
        invariant 0 <= i < bufferLen - 1 && i <= |old(rx)|
        invariant rx == old(rx)[i..]
        invariant buffer[..i] == old(rx)[..i]
        invariant buffer[i..] == old(buffer[i..])
        decreases |rx|
      {
        var c := rx[0];
        rx := rx[1..];
        buffer[i] := c;
        i := i + 1;
        if i == bufferLen - 1 {
          break;
        }
      }
      buffer[i] := NUL;
    }

    /** Reads one line of at most MaxLineLength - 1 bytes and reports whether
        it is exactly ExpectedInitRes; there is no retry. */
    method Init() returns (ok: bool)
      modifies this
      ensures ok == InitAccepts(old(rx))
      ensures rx == old(rx)[LineLength(|old(rx)|, MaxLineLength)..]
    {
      var resBuffer := new char[MaxLineLength];
      ghost var before := rx;
      ReadLine(resBuffer, resBuffer.Length);
      ghost var n := LineLength(|before|, MaxLineLength);
      CStrCut(resBuffer[..], n);
      assert resBuffer[..][..n] == before[..n];
      ok := CStr(resBuffer[..]) == ExpectedInitRes;
    }
  }
}
