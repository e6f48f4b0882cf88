/**
 * The sysfs helpers of utils.c over an abstract attribute store. Opening, reading and
 * writing an attribute become a lookup in `attrs`; a path that is missing or whose
 * permission is off makes `open` fail, and `writeLimit` says how much of a write the
 * driver accepts (a negative limit makes the write itself fail).
 */
module Sysfs {
  import opened Types

  type Path = seq<char>

  datatype Attr = Attr(content: seq<byte>, readable: bool, writable: bool, writeLimit: int)

  /** Result of open + read of at most `count` bytes + close: -1 on failure, otherwise the bytes delivered. */
  function ReadCount(attrs: map<Path, Attr>, path: Path, count: int): int
  {
    if path in attrs && attrs[path].readable then Min(count, |attrs[path].content|) else -1
  }

  /** Result of open + write of `count` bytes + close: -1 on failure, otherwise the bytes accepted. */
  function WriteCount(attrs: map<Path, Attr>, path: Path, count: nat): int
  {
    if path in attrs && attrs[path].writable && attrs[path].writeLimit >= 0 then Min(count, attrs[path].writeLimit)
    else -1
  }

  /** Argument guard shared by `sysfs_read` and `sysfs_write`: empty path, null buffer or `buf_len < 1`. */
  predicate BadArgs(path: Path, hasBuf: bool, bufLen: int)
  {
    path == [] || !hasBuf || bufLen < 1
  }

  /** What `sysfs_read` returns: -1 for bad arguments, otherwise the result of the read. */
  function ReadResult(attrs: map<Path, Attr>, path: Path, hasBuf: bool, bufLen: int): int
  {
    if BadArgs(path, hasBuf, bufLen) then -1 else ReadCount(attrs, path, bufLen)
  }

  /** `data` laid over the front of `base`. */
  function Overlay(base: seq<byte>, data: seq<byte>): (r: seq<byte>)
    requires |data| <= |base|
    ensures |r| == |base|
  {
    data + base[|data|..]
  }

  /** The terminator `sysfs_read_str` stores: over the last byte read, or at 0 when nothing was read. */
  function TerminatorIndex(len: nat): nat
  {
    if len == 0 then 0 else len - 1
  }

  class Store {
    var attrs: map<Path, Attr>

    constructor (initial: map<Path, Attr>)
      ensures attrs == initial
    {
      attrs := initial;
    }

    /** open(path, O_WRONLY); write(fd, data, |data|); close(fd). */
    method WriteOpened(path: Path, data: seq<byte>) returns (len: int)
      modifies this
      ensures len == WriteCount(old(attrs), path, |data|)
      ensures len >= 0 ==> attrs == old(attrs)[path := old(attrs)[path].(content := data[..len])]
      ensures len < 0 ==> attrs == old(attrs)
    {
      len := -1;
      if path in attrs && attrs[path].writable {
        var a := attrs[path];
        if a.writeLimit >= 0 {
          len := Min(|data|, a.writeLimit);
          attrs := attrs[path := a.(content := data[..len])];
        }
      }
    }

    /** `sysfs_read`: reads up to `bufLen` bytes of the attribute into `buf`. */
    method Read(path: Path, buf: array?<byte>, bufLen: int) returns (len: int)
      requires buf != null ==> bufLen <= buf.Length
      modifies buf
      ensures len == ReadResult(attrs, path, buf != null, bufLen)
      ensures len < 0 ==> buf != null ==> buf[..] == old(buf[..])
      ensures len >= 0 ==> buf != null && path in attrs && len <= |attrs[path].content|
      ensures len >= 0 ==> buf != null && buf[..] == Overlay(old(buf[..]), attrs[path].content[..len])
    {
      if BadArgs(path, buf != null, bufLen) {
        return -1;
      }
      len := ReadCount(attrs, path, bufLen);
      if len >= 0 {
        var data := attrs[path].content[..len];
        var i := 0;
        while i < len
          invariant 0 <= i <= len
          invariant forall k :: 0 <= k < i ==> buf[k] == data[k]
          invariant forall k :: i <= k < buf.Length ==> buf[k] == old(buf[k])
        {
          buf[i] := data[i];
          i := i + 1;
        }
        assert buf[..] == Overlay(old(buf[..]), data);
      }
    }

    /** `sysfs_write`: writes the first `bufLen` bytes of `buf`. */
    method Write(path: Path, buf: array?<byte>, bufLen: int) returns (len: int)
      requires buf != null ==> bufLen <= buf.Length
      modifies this
      ensures BadArgs(path, buf != null, bufLen) ==> len == -1 && attrs == old(attrs)
      ensures !BadArgs(path, buf != null, bufLen) ==> len == WriteCount(old(attrs), path, bufLen)
      ensures !BadArgs(path, buf != null, bufLen) && len >= 0 ==>
        attrs == old(attrs)[path := old(attrs)[path].(content := buf[..len])]
      ensures len < 0 ==> attrs == old(attrs)
    {
      if BadArgs(path, buf != null, bufLen) {
        return -1;
      }
      len := WriteOpened(path, buf[..bufLen]);
      assert len >= 0 ==> buf[..bufLen][..len] == buf[..len];
    }

    /** `sysfs_read_str`: reads the attribute and turns its last byte (the newline) into the terminator. */
    method ReadStr(path: Path, buf: array?<byte>, bufLen: int) returns (len: int)
      requires buf != null ==> bufLen <= buf.Length
      modifies buf
      ensures len == ReadResult(attrs, path, buf != null, bufLen)
      ensures len < 0 ==> buf != null ==> buf[..] == old(buf[..])
      ensures len >= 0 ==> buf != null && path in attrs && len <= |attrs[path].content|
      ensures len >= 0 ==> (buf != null &&
        buf[..] == Overlay(old(buf[..]), attrs[path].content[..len])[TerminatorIndex(len) := 0])
    {
      if buf == null || bufLen < 1 {
        return -1;
      }
      len := Read(path, buf, bufLen);
      if len == -1 {
        return -1;
      }
      buf[TerminatorIndex(len)] := 0;
    }

    /**
     * `sysfs_read_num` with the text-to-number conversion (`atoi`, `strtof`, `atoll`) as a
     * parameter: 0 and the converted value on a non-empty read, otherwise -1 and `v` unchanged.
     */
    method ReadNum(path: Path, v: int, convert: seq<byte> -> int) returns (ret: int, v': int)
      ensures ret == (if ReadResult(attrs, path, true, 20) <= 0 then -1 else 0)
      ensures ret != 0 ==> v' == v
      ensures ret == 0 ==> (path in attrs &&
        v' == convert(CString(attrs[path].content[..ReadCount(attrs, path, 20) - 1])))
    {
      var buf := new byte[20];
      var len := ReadStr(path, buf, 20);
      if len <= 0 {
        return -1, v;
      }
      ghost var text := attrs[path].content[..len];
      assert buf[..len - 1] == text[..len - 1];
      TerminatedText(buf[..], text);
      assert text[..len - 1] == attrs[path].content[..ReadCount(attrs, path, 20) - 1];
      v' := convert(CString(buf[..]));
      ret := 0;
    }

    /** `sysfs_write_str`: -1 for a null or empty string, otherwise writes its `strlen` bytes. */
    method WriteStr(path: Path, str: Option<seq<byte>>) returns (len: int)
      modifies this
      ensures str.None? || CString(str.value) == [] ==> len == -1 && attrs == old(attrs)
      ensures str.Some? && CString(str.value) != [] ==>
        len == (if path == [] then -1 else WriteCount(old(attrs), path, |CString(str.value)|))
      ensures str.Some? && CString(str.value) != [] && len >= 0 ==>
        attrs == old(attrs)[path := old(attrs)[path].(content := CString(str.value)[..len])]
      ensures len < 0 ==> attrs == old(attrs)
    {
      if str.None? || CString(str.value) == [] {
        return -1;
      }
      var text := CString(str.value);
      var buf := new byte[|text|](i requires 0 <= i < |text| => text[i]);
      assert buf[..] == text;
      len := Write(path, buf, |text|);
    }

    /** `sysfs_write_int`: writes the decimal text of `value`; the result may be a short count. */
    method WriteInt(path: Path, value: int) returns (ret: int)
      modifies this
      ensures ret == (if path == [] then -1 else WriteCount(old(attrs), path, |DecimalText(value)|))
      ensures ret >= 0 ==> attrs == old(attrs)[path := old(attrs)[path].(content := DecimalText(value)[..ret])]
      ensures ret < 0 ==> attrs == old(attrs)
    {
      var text := DecimalText(value);
      if path == [] || |text| <= 0 {
        return -1;
      }
      ret := WriteOpened(path, text);
    }

    /**
     * `sysfs_write_float` with the `%g` formatting done by the caller: `text` is what
     * `snprintf` produced (empty when it failed).
     */
    method WriteFloat(path: Path, text: seq<byte>) returns (ret: int)
      requires |text| < 20
      modifies this
      ensures ret == (if path == [] || text == [] then -1 else WriteCount(old(attrs), path, |text|))
      ensures ret >= 0 ==> attrs == old(attrs)[path := old(attrs)[path].(content := text[..ret])]
      ensures ret < 0 ==> attrs == old(attrs)
    {
      if path == [] || |text| <= 0 {
        return -1;
      }
      ret := WriteOpened(path, text);
    }
  }

  /** A buffer holding `text` with its last byte replaced by NUL reads back as the C string of `text` minus that byte. */
  lemma {:induction false} TerminatedText(b: seq<byte>, text: seq<byte>)
    requires 0 < |text| <= |b|
    requires b[..|text| - 1] == text[..|text| - 1] && b[|text| - 1] == 0
    ensures CString(b) == CString(text[..|text| - 1])
  {
    var t := text[..|text| - 1];
    CStringPrefix(b, t);
  }

  /** The C string of `b` is that of any prefix of `b` that reaches a NUL or is followed by one. */
  lemma {:induction false} CStringPrefix(b: seq<byte>, t: seq<byte>)
    requires |t| < |b| && b[..|t|] == t && b[|t|] == 0
    ensures CString(b) == CString(t)
  {
    if t == [] {
    } else if b[0] == 0 {
    } else {
      assert b[1..][..|t| - 1] == t[1..];
      CStringPrefix(b[1..], t[1..]);
    }
  }
}
