/**
 * The repository's four test functions replayed on the model, one method
 * each; every `assert` here stands for an `assert!` of the test, and each
 * `.unwrap()` becomes an assertion that the call succeeded. The byte-string
 * literals are spelt out as ASCII codes.
 */
module Scenarios {
  import opened Bytes
  import opened Spool
  import opened SpooledFile

  /** test_implicit_rollover */
  method ImplicitRollover() {
    var sf := new SpooledTempFile(5);
    var readBuffer: seq<bv8> := [];

    assert !sf.IsRolled();
    assert !sf.IsPoisoned();
    var p := sf.Position();
    assert p == Ok(0);
    var got := sf.ReadToEnd();
    assert got.Ok?;
    readBuffer := readBuffer + got.value;
    assert |readBuffer| == 0;

    var first: seq<bv8> := [0x31, 0x32, 0x33, 0x34];  // "1234"
    WriteAtEndAppends(sf.Model(), first);
    var w := sf.Write(first);
    assert w.Ok?;

    assert !sf.IsRolled();
    assert !sf.IsPoisoned();
    p := sf.Position();
    assert p == Ok(4);
    var curPos := p.value;
    var s := sf.Seek(0);
    assert s.Ok?;
    ReadFromStart(sf.Model());
    got := sf.ReadToEnd();
    assert got.Ok?;
    readBuffer := readBuffer + got.value;
    assert readBuffer == first;
    readBuffer := [];

    s := sf.Seek(curPos);
    assert s.Ok?;

    var second: seq<bv8> := [0x35, 0x36, 0x37, 0x38];  // "5678"
    WriteAtEndAppends(sf.Model(), second);
    w := sf.Write(second);
    assert w.Ok?;

    assert sf.IsRolled();
    assert !sf.IsPoisoned();
    p := sf.Position();
    assert p == Ok(8);

    s := sf.Seek(0);
    assert s.Ok?;
    ReadFromStart(sf.Model());
    got := sf.ReadToEnd();
    assert got.Ok?;
    readBuffer := readBuffer + got.value;
    assert readBuffer == first + second;

    var inner := sf.IntoInner();
    assert inner.Ok? && inner.value.OnDisk?;
  }

  /** test_explicit_rollover */
  method ExplicitRollover() {
    var sf := new SpooledTempFile(5);
    var readBuffer: seq<bv8> := [];

    var first: seq<bv8> := [0x31, 0x32, 0x33];  // "123"
    WriteAtEndAppends(sf.Model(), first);
    var w := sf.Write(first);
    assert w.Ok?;

    assert !sf.IsRolled();
    assert !sf.IsPoisoned();
    var p := sf.Position();
    assert p == Ok(3);

    var s := sf.Seek(0);
    assert s.Ok?;

    var rr := sf.Roll();
    assert rr.Ok?;

    assert sf.IsRolled();
    assert !sf.IsPoisoned();
    p := sf.Position();
    assert p == Ok(0);

    ReadFromStart(sf.Model());
    var got := sf.ReadToEnd();
    assert got.Ok?;
    readBuffer := readBuffer + got.value;
    assert readBuffer == first;
    var inner := sf.IntoInner();
    assert inner.Ok? && inner.value.OnDisk?;
  }

  /** test_into_inner */
  method IntoInnerBackends() {
    var sf1 := new SpooledTempFile(10);

    var first: seq<bv8> := [0x31, 0x32, 0x33, 0x34, 0x35, 0x36, 0x37];  // "1234567"
    WriteAtEndAppends(sf1.Model(), first);
    var w := sf1.Write(first);
    assert w.Ok?;

    assert !sf1.IsRolled();
    assert !sf1.IsPoisoned();
    var p := sf1.Position();
    assert p == Ok(7);
    var inner := sf1.IntoInner();
    assert inner.Ok? && inner.value.InMemory?;

    var sf2 := new SpooledTempFile.WithMaxSizeAndCapacity(10, 10);

    var second: seq<bv8> := [0x31, 0x32, 0x33, 0x34, 0x35, 0x36, 0x37, 0x38, 0x39,
                             0x61, 0x62, 0x63, 0x64, 0x65, 0x66];  // "123456789abcdef"
    WriteAtEndAppends(sf2.Model(), second);
    w := sf2.Write(second);
    assert w.Ok?;

    assert sf2.IsRolled();
    assert !sf2.IsPoisoned();
    p := sf2.Position();
    assert p == Ok(15);
    inner := sf2.IntoInner();
    assert inner.Ok? && inner.value.OnDisk?;
  }

  /** test_set_len */
  method SetLenBackends() {
    var sf1 := new SpooledTempFile(10);
    var r := sf1.SetLen(4);
    assert r.Ok?;

    var inner := sf1.IntoInner();
    assert inner.Ok? && inner.value.InMemory?;
    assert inner.value.bytes == [0, 0, 0, 0];

    var sf2 := new SpooledTempFile(5);
    var abc: seq<bv8> := [0x61, 0x62, 0x63];  // "abc"
    WriteAtEndAppends(sf2.Model(), abc);
    var w := sf2.Write(abc);
    assert w.Ok?;
    assert !sf2.IsRolled();
    assert !sf2.IsPoisoned();
    r := sf2.SetLen(10);
    assert r.Ok?;

    inner := sf2.IntoInner();
    assert inner.Ok? && inner.value.OnDisk?;
    // The test seeks the returned file to 0 and reads it to the end: that is its whole content.
    assert inner.value.bytes == [0x61, 0x62, 0x63, 0, 0, 0, 0, 0, 0, 0];
  }
}
