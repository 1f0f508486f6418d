// The writers that are safe inside a signal handler (src/signal-safe.hpp): a fixed buffer in front
// of a file, and a string of bounded length.
module SignalSafe {
  import opened Digits

  // The file behind a descriptor. The system takes any positive part of what it is offered.
  class Device {
    var sent: string

    constructor ()
      ensures sent == ""
    {
      sent := "";
    }

    method Write(data: string) returns (n: nat)
      requires data != ""
      modifies this
      ensures 0 < n <= |data| && sent == old(sent) + data[..n]
    {
      n :| 0 < n <= |data|;
      sent := sent + data[..n];
    }
  }

  class BufFileWriter {
    const buffer: array<char>
    const file: Device
    var pos: nat

    ghost predicate Valid()
      reads this
    {
      0 < buffer.Length && pos <= buffer.Length
    }

    // All that has been written: what the system has got, and what still waits.
    ghost function Written(): string
      reads this, file, buffer
      requires Valid()
    {
      file.sent + buffer[..pos]
    }

    constructor (size: nat, device: Device)
      requires 0 < size
      ensures Valid() && fresh(buffer) && buffer.Length == size && file == device && pos == 0
      ensures Written() == device.sent
    {
      buffer, file, pos := new char[size](_ => '\0'), device, 0;
    }

    // Sends everything, however many calls the system needs.
    method Flush()
      requires Valid()
      modifies this, file
      ensures Valid() && pos == 0 && file.sent == old(Written())
    {
      var i := 0;
      while i < pos
        invariant i <= pos == old(pos)
        invariant file.sent == old(file.sent) + buffer[..i]
      {
        var n := file.Write(buffer[i..pos]);
        assert buffer[..i] + buffer[i..pos][..n] == buffer[..i + n];
        i := i + n;
      }
      pos := 0;
    }

    // memcpy into the free part of the buffer.
    method Fill(data: string)
      requires Valid() && pos + |data| <= buffer.Length
      modifies this, buffer
      ensures Valid() && pos == old(pos) + |data| && buffer[..pos] == old(buffer[..pos]) + data
    {
      var start := pos;
      for i := 0 to |data|
        modifies buffer
        invariant buffer[..start + i] == old(buffer[..pos]) + data[..i]
      {
        buffer[start + i] := data[i];
        assert buffer[..start + i + 1] == buffer[..start + i] + [data[i]];
      }
      assert data[..|data|] == data;
      pos := pos + |data|;
    }

    // write(data, len): nothing is lost, doubled or reordered.
    method Write(data: string)
      requires Valid()
      modifies this, buffer, file
      ensures Valid() && Written() == old(Written()) + data
    {
      var rest := data;
      ghost var done := "";
      while rest != ""
        invariant Valid() && data == done + rest && Written() == old(Written()) + done
        decreases |rest|, if pos == buffer.Length then 1 else 0
      {
        var n := if |rest| < buffer.Length - pos then |rest| else buffer.Length - pos;
        ghost var before := Written();
        Fill(rest[..n]);
        assert Written() == before + rest[..n];
        assert data == (done + rest[..n]) + rest[n..];
        done := done + rest[..n];
        rest := rest[n..];
        if pos == buffer.Length {
          Flush();
        }
      }
      assert done == data;
    }

    method WriteChar(c: char)
      requires Valid()
      modifies this, buffer, file
      ensures Valid() && Written() == old(Written()) + [c]
    {
      if pos == buffer.Length {
        Flush();
      }
      buffer[pos] := c;
      pos := pos + 1;
      assert buffer[..pos] == buffer[..pos - 1] + [c];
    }

    // The divisor never exceeds the number, so it does not overflow, and it is positive whenever
    // it divides.
    method WriteNum(num: nat)
      requires Valid() && num <= SIZE_MAX
      modifies this, buffer, file
      ensures Valid() && Written() == old(Written()) + Printed(num)
    {
      var d: nat, n: nat := 0, num;
      ghost var k: nat;
      d, k := StartDivisor(num);
      while n > 0
        invariant Valid() && n < Pow10(k) && d == Divisor(k)
        invariant Written() + Emitted(n, k) == old(Written()) + Printed(num)
        decreases k
      {
        ghost var before, all := Written(), Emitted(n, k);
        var c: char;
        c, n, d := NextDigit(n, d, k);
        k := k - 1;
        WriteChar(c);
        assert before + all == Written() + Emitted(n, k);
      }
      assert Written() + "" == Written();
    }

    // The destructor.
    method Close()
      requires Valid()
      modifies this, file
      ensures file.sent == old(Written())
    {
      Flush();
    }
  }

  // The divisor for k more digits: integer division takes 1 to 0 at the end.
  function Divisor(k: nat): nat {
    if k == 0 then 0 else Pow10(k - 1)
  }

  method StartDivisor(num: nat) returns (d: nat, ghost k: nat)
    requires num <= SIZE_MAX
    ensures k == Width(num) && d == Divisor(k) && 0 < d <= SIZE_MAX
  {
    d, k := 1, 1;
    assert Pow10(0) == 1;
    while num / BASE >= d
      invariant k > 0 && d == Divisor(k) && (k > 1 ==> d <= num) && 0 < d <= SIZE_MAX
      decreases num - d
    {
      assert d * BASE <= num;
      d := d * BASE;
      k := k + 1;
    }
    WidthIs(num, k);
  }

  // One round of the printing loop: the digit, the rest, and the next divisor.
  method NextDigit(n: nat, d: nat, ghost k: nat) returns (c: char, rest: nat, less: nat)
    requires 0 < n < Pow10(k) && d == Divisor(k)
    ensures k > 0 && rest < Pow10(k - 1) && less == Divisor(k - 1)
    ensures Emitted(n, k) == [c] + Emitted(rest, k - 1)
  {
    DivBound(n, d);
    c, rest, less := Digit(n / d), n % d, d / BASE;
  }

  lemma WidthIs(n: nat, k: nat)
    requires k > 0 && n < Pow10(k) && (k > 1 ==> Pow10(k - 1) <= n)
    ensures Width(n) == k
  {
    if Width(n) < k {
      PowGrows(Width(n), k - 1);
    } else if k < Width(n) {
      PowGrows(k, Width(n) - 1);
    }
  }

  lemma {:induction false} PowGrows(a: nat, b: nat)
    requires a <= b
    ensures Pow10(a) <= Pow10(b)
  {
    if a < b {
      PowGrows(a, b - 1);
    }
  }

  // A string of bounded length. The first write that does not fit ends it.
  class MaxLengthCString {
    const str: array<char>
    var pos: nat
    var boundsExceeded: bool
    ghost var asked: string

    // What is kept is a beginning of all that was asked for, and all of it unless the bound was met.
    ghost predicate Valid()
      reads this, str
    {
      && pos < str.Length
      && str[..pos] <= asked
      && (!boundsExceeded ==> str[..pos] == asked)
    }

    ghost function Contents(): string
      reads this, str
      requires Valid()
    {
      str[..pos]
    }

    constructor (size: nat)
      requires 0 < size
      ensures Valid() && fresh(str) && str.Length == size && Contents() == "" && !boundsExceeded && asked == ""
    {
      str, pos, boundsExceeded, asked := new char[size](_ => '\0'), 0, false, "";
    }

    method Write(data: string)
      requires Valid()
      modifies this, str
      ensures Valid() && asked == old(asked) + data
      ensures boundsExceeded == (old(boundsExceeded) || old(pos) + |data| >= str.Length)
      ensures Contents() == if boundsExceeded then old(Contents()) else old(Contents()) + data
      ensures !boundsExceeded ==> str[pos] == '\0'
    {
      asked := asked + data;
      if boundsExceeded || pos + |data| >= str.Length {
        boundsExceeded := true;
        return;
      }
      ghost var was := str[..pos];
      for i := 0 to |data|
        modifies str
        invariant str[..pos + i] == was + data[..i]
      {
        str[pos + i] := data[i];
        assert str[..pos + i + 1] == str[..pos + i] + [data[i]];
      }
      assert data[..|data|] == data;
      pos := pos + |data|;
      str[pos] := '\0';
      assert str[..pos] == was + data;
    }

    method WriteChar(c: char)
      requires Valid()
      modifies this, str
      ensures Valid() && asked == old(asked) + [c]
      ensures boundsExceeded == (old(boundsExceeded) || old(pos) + 1 >= str.Length)
      ensures Contents() == if boundsExceeded then old(Contents()) else old(Contents()) + [c]
    {
      asked := asked + [c];
      if boundsExceeded || pos + 1 >= str.Length {
        boundsExceeded := true;
        return;
      }
      str[pos] := c;
      pos := pos + 1;
      assert str[..pos] == str[..pos - 1] + [c];
    }

    // The digits that still fit; all of them unless the bound is met.
    method WriteNum(num: nat)
      requires Valid() && num <= SIZE_MAX
      modifies this, str
      ensures Valid() && asked == old(asked) + Printed(num)
      ensures old(boundsExceeded) ==> boundsExceeded && Contents() == old(Contents())
      ensures boundsExceeded == (old(boundsExceeded) || old(pos) + |Printed(num)| >= str.Length)
    {
      var d: nat, n: nat := 0, num;
      ghost var k: nat;
      d, k := StartDivisor(num);
      while n > 0
        invariant Valid() && n < Pow10(k) && d == Divisor(k)
        invariant asked + Emitted(n, k) == old(asked) + Printed(num)
        invariant old(boundsExceeded) ==> boundsExceeded && Contents() == old(Contents())
        invariant !old(boundsExceeded) && boundsExceeded ==> old(pos) + |Printed(num)| >= str.Length
        invariant !boundsExceeded ==> pos + |Emitted(n, k)| == old(pos) + |Printed(num)|
        decreases k
      {
        ghost var before, all := asked, Emitted(n, k);
        var c: char;
        c, n, d := NextDigit(n, d, k);
        k := k - 1;
        WriteChar(c);
        assert before + all == asked + Emitted(n, k);
      }
      assert asked + "" == asked;
    }
  }
}
