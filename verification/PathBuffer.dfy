/**
 The fixed-size, NUL-terminated path buffer that all entries of one directory
 listing share.
 */
module PathBuffers {
  import opened ListingSpec

  /** The C string stored at the start of `s`: everything before the first NUL. */
  function CString(s: seq<char>): string {
    if s == [] || s[0] == '\0' then [] else [s[0]] + CString(s[1..])
  }

  lemma {:induction false} CStringUpToNul(s: seq<char>, n: nat)
    requires n < |s| && s[n] == '\0' && '\0' !in s[..n]
    ensures CString(s) == s[..n]
  {
    if n == 0 {
    } else {
      assert s[0] == s[..n][0];
      assert s[1..][..n - 1] == s[..n][1..];
      CStringUpToNul(s[1..], n - 1);
    }
  }

  /** What can be read of a buffer that holds a path. */
  lemma StoredIsRead(data: seq<char>, path: string)
    requires |data| == PATH_MAX + 1 && |path| <= PATH_MAX && '\0' !in path
    requires data[..|path|] == Stored(path) && data[|path|] == '\0'
    ensures CString(data) == Truncated(path)
  {
    var end := |Truncated(path)|;
    assert data[..end] == Stored(path)[..end] == Truncated(path);
    assert end < |path| ==> data[end] == Stored(path)[end];
    CStringUpToNul(data, end);
  }

  /** What can be read from a buffer once a name has been printed behind its contents. */
  lemma TextAfterPrint(data: seq<char>, before: string, name: string)
    requires |data| == PATH_MAX + 1 && |before| < PATH_MAX && data[..|before|] == before
    requires '\0' !in before && '\0' !in name
    requires var end := if |before + name| < PATH_MAX then |before + name| else PATH_MAX - 1;
             data[|before|..end] == name[..end - |before|] && data[end] == '\0'
    ensures CString(data) == Truncated(before + name)
  {
    var end := if |before + name| < PATH_MAX then |before + name| else PATH_MAX - 1;
    assert data[..end] == data[..|before|] + data[|before|..end];
    assert before + name[..end - |before|] == Truncated(before + name);
    CStringUpToNul(data, end);
  }

  class PathBuffer {
    const data: array<char>
    var length: nat

    ghost predicate Valid()
      reads this, data
    {
      data.Length == PATH_MAX + 1 && length <= PATH_MAX && data[PATH_MAX] == '\0'
    }

    /** What the operating system reads when it is handed the buffer. */
    ghost function Text(): string
      reads data
    {
      CString(data[..])
    }

    /** The part of the buffer that counts as its contents. */
    ghost function Contents(): string
      requires Valid()
      reads this, data
    {
      data[..length]
    }

    constructor ()
      ensures Valid() && fresh(data) && length == 0 && Text() == ""
    {
      data := new char[PATH_MAX + 1](_ => '\0');
      length := 0;
    }

    /** snprintf(data + length, PATH_MAX - length, "%s", name) */
    method Print(name: string) returns (written: nat)
      requires Valid()
      modifies data
      ensures Valid()
      ensures written == |name|
      ensures data[..length] == old(data[..length])
      ensures length == PATH_MAX ==> data[..] == old(data[..])
      ensures length < PATH_MAX ==>
                var end := if length + |name| < PATH_MAX then length + |name| else PATH_MAX - 1;
                data[length..end] == name[..end - length] && data[end] == '\0'
    {
      var size := PATH_MAX - length;
      if size > 0 {
        var count := if |name| < size then |name| else size - 1;
        var i := 0;
        while i < count
          invariant 0 <= i <= count
          invariant data[length..length + i] == name[..i]
          invariant data[..length] == old(data[..length])
          invariant data[PATH_MAX] == '\0'
        {
          data[length + i] := name[i];
          i := i + 1;
        }
        data[length + count] := '\0';
      }
      written := |name|;
    }

    /**
     Appends a name.  It is refused only when it does not fit in PATH_MAX characters; of the
     names that are accepted, exactly those that fill the buffer are not read back whole.
     */
    method Add(name: string) returns (ok: bool)
      requires Valid() && '\0' !in name
      modifies this`length, data
      ensures Valid()
      ensures ok <==> old(length) + |name| <= PATH_MAX
      ensures length == if ok then old(length) + |name| else old(length)
      ensures data[..old(length)] == old(data[..length])
      ensures '\0' !in old(Contents()) && old(length) < PATH_MAX ==>
                Text() == Truncated(old(Contents()) + name)
      ensures ok && old(length) < PATH_MAX ==> Contents() == Stored(old(Contents()) + name) && data[length] == '\0'
      ensures old(length) == PATH_MAX ==> data[..] == old(data[..])
      ensures '\0' !in old(Contents()) && old(length) < PATH_MAX ==>
                (ok && Text() != old(Contents()) + name <==> old(length) + |name| == PATH_MAX)
    {
      ghost var before, start := Contents(), length;
      var written := Print(name);
      data[PATH_MAX] := '\0';
      if '\0' !in before && length < PATH_MAX {
        TextAfterPrint(data[..], before, name);
        assert |before + name| >= PATH_MAX ==> |Truncated(before + name)| == PATH_MAX - 1;
      }
      var measured := if |name| <= PATH_MAX + 1 then |name| else PATH_MAX + 1;
      if written <= PATH_MAX - length && written == measured {
        length := length + written;
        assert length < PATH_MAX ==> data[..length] == data[..start] + data[start..length];
        if start < PATH_MAX == length {
          assert data[..length] == data[..start] + data[start..length - 1] + [data[length - 1]];
          assert Stored(before + name) == before + name[..|name| - 1] + ['\0'];
        }
        return true;
      } else {
        return false;
      }
    }

    method Reset(newLength: nat)
      requires Valid() && newLength <= PATH_MAX
      modifies this`length, data
      ensures Valid()
      ensures length == newLength
      ensures data[..newLength] == old(data[..newLength]) && data[newLength] == '\0'
      ensures forall path {:trigger Stored(path)} ::
                data[..newLength] == Stored(path) && |path| == newLength && '\0' !in path ==> Text() == Truncated(path)
    {
      length := newLength;
      data[length] := '\0';
      forall path {:trigger Stored(path)} | data[..newLength] == Stored(path) && |path| == newLength && '\0' !in path
        ensures Text() == Truncated(path)
      {
        StoredIsRead(data[..], path);
      }
    }

    /** The C string itself, read up to the terminating NUL. */
    method AsString() returns (s: string)
      requires Valid()
      ensures s == Text()
    {
      var n := 0;
      while data[n] != '\0'
        invariant 0 <= n <= PATH_MAX
        invariant '\0' !in data[..n]
        decreases PATH_MAX - n
      {
        n := n + 1;
      }
      s := data[..n];
      assert data[..][..n] == data[..n];
      CStringUpToNul(data[..], n);
    }
  }

  /** The failing case: an empty buffer accepts a name of PATH_MAX characters and gives back one less. */
  method ExactFitIsCut() returns (buffer: PathBuffer, name: string, ok: bool)
    ensures |name| == PATH_MAX && '\0' !in name && ok
    ensures buffer.Valid() && buffer.Text() == name[..PATH_MAX - 1]
  {
    buffer := new PathBuffer();
    name := seq(PATH_MAX, _ => 'a');
    ok := buffer.Add(name);
    assert "" + name == name;
  }
}
