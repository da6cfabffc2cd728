/**
 * Object keys of the result store.
 *
 * A finished job's image is uploaded under `<prefix>/<job id>/result.jpeg`, and at
 * startup the job id is recovered from a listed key as `key.split("/")[1]`.
 * This module models Python's `str.split` with an explicit one-character
 * separator, its inverse `str.join`, and the two uses the server makes of them.
 */
module ObjectKeys {
  import opened Wrappers

  /** Bucket that holds every result object. */
  const BucketName: string := "cr-sd3-torchserve"
  /** Namespace under which results are written and listed. */
  const ObjectsPrefix: string := "sd3-outputs"
  /** Name of the single object written per job. */
  const ResultFileName: string := "result.jpeg"
  /** Separator between the parts of a key. */
  const Slash: char := '/'

  /**
   * Python's `s.split(sep)` for a one-character `sep`: the maximal runs of
   * characters between separators, including empty runs at either end.
   */
  function Split(s: string, sep: char): (parts: seq<string>)
    ensures |parts| >= 1
    ensures forall i | 0 <= i < |parts| :: sep !in parts[i]
    ensures |parts| == 1 <==> sep !in s
    decreases |s|
  {
    if s == "" then [""]
    else
      var rest := Split(s[1..], sep);
      if s[0] == sep then [""] + rest
      else [[s[0]] + rest[0]] + rest[1..]
  }

  /** Python's `sep.join(parts)`. */
  function Join(parts: seq<string>, sep: char): string
    decreases |parts|
  {
    if |parts| == 0 then ""
    else if |parts| == 1 then parts[0]
    else parts[0] + [sep] + Join(parts[1..], sep)
  }

  /** Joining what `Split` produced gives back the original text. */
  lemma {:induction false} JoinSplit(s: string, sep: char)
    ensures Join(Split(s, sep), sep) == s
    decreases |s|
  {
    if s != "" {
      var rest := Split(s[1..], sep);
      JoinSplit(s[1..], sep);
      if s[0] == sep {
        assert Split(s, sep) == [""] + rest;
        assert ([""] + rest)[1..] == rest;
        assert s == [sep] + s[1..];
      } else {
        var parts := [[s[0]] + rest[0]] + rest[1..];
        assert Split(s, sep) == parts;
        if |rest| == 1 {
          assert s == [s[0]] + s[1..];
        } else {
          assert parts[1..] == rest[1..];
          assert Join(parts, sep) == [s[0]] + rest[0] + [sep] + Join(rest[1..], sep);
          assert s == [s[0]] + s[1..];
        }
      }
    }
  }

  /** Text free of the separator splits into itself alone. */
  lemma {:induction false} SplitWhole(a: string, sep: char)
    requires sep !in a
    ensures Split(a, sep) == [a]
    decreases |a|
  {
    if a != "" {
      SplitWhole(a[1..], sep);
      assert a == [a[0]] + a[1..];
    }
  }

  /** A part free of the separator, followed by the separator, splits off as one part. */
  lemma {:induction false} SplitAfterPart(a: string, b: string, sep: char)
    requires sep !in a
    ensures Split(a + [sep] + b, sep) == [a] + Split(b, sep)
    decreases |a|
  {
    var s := a + [sep] + b;
    if a == "" {
      assert s == [sep] + b;
      assert s[1..] == b;
    } else {
      assert s[1..] == a[1..] + [sep] + b;
      SplitAfterPart(a[1..], b, sep);
      assert a == [a[0]] + a[1..];
    }
  }

  /** Splitting the join of separator-free parts gives the parts back. */
  lemma {:induction false} SplitJoin(parts: seq<string>, sep: char)
    requires |parts| >= 1
    requires forall i | 0 <= i < |parts| :: sep !in parts[i]
    ensures Split(Join(parts, sep), sep) == parts
    decreases |parts|
  {
    if |parts| == 1 {
      SplitWhole(parts[0], sep);
    } else {
      SplitJoin(parts[1..], sep);
      SplitAfterPart(parts[0], Join(parts[1..], sep), sep);
      assert parts == [parts[0]] + parts[1..];
    }
  }

  /** The key a completed job's image is uploaded under. */
  function ResultKey(uid: string): (key: string)
    ensures key == Join([ObjectsPrefix, uid, ResultFileName], Slash)
  {
    var parts := [ObjectsPrefix, uid, ResultFileName];
    assert parts[1..] == [uid, ResultFileName] && parts[1..][1..] == [ResultFileName];
    assert Join(parts[1..], Slash) == uid + [Slash] + ResultFileName;
    assert Join(parts, Slash) == ObjectsPrefix + [Slash] + (uid + [Slash] + ResultFileName);
    ObjectsPrefix + "/" + uid + "/" + ResultFileName
  }

  /**
   * The job id read back from a listed key, `key.split("/")[1]`; `None` where
   * Python raises `IndexError` because the key holds no '/'.
   */
  function JobIdOf(key: string): (id: Option<string>)
    ensures id.Some? <==> Slash in key
    ensures id.Some? ==> Slash !in id.value
  {
    var parts := Split(key, Slash);
    if |parts| >= 2 then Some(parts[1]) else None
  }

  /** The result key of a job id free of '/' splits into exactly prefix, id and file name. */
  lemma ResultKeyParts(uid: string)
    requires Slash !in uid
    ensures Split(ResultKey(uid), Slash) == [ObjectsPrefix, uid, ResultFileName]
  {
    var parts := [ObjectsPrefix, uid, ResultFileName];
    assert Slash !in ObjectsPrefix;
    assert Slash !in ResultFileName;
    assert forall i | 0 <= i < |parts| :: Slash !in parts[i];
    SplitJoin(parts, Slash);
  }

  /** Re-parsing the key written for a job gives back that job's id. */
  lemma JobIdRoundTrip(uid: string)
    requires Slash !in uid
    ensures JobIdOf(ResultKey(uid)) == Some(uid)
  {
    ResultKeyParts(uid);
  }

  /** Distinct job ids get distinct result keys. */
  lemma ResultKeyInjective(u: string, v: string)
    requires Slash !in u && Slash !in v
    requires ResultKey(u) == ResultKey(v)
    ensures u == v
  {
    JobIdRoundTrip(u);
    JobIdRoundTrip(v);
  }
}
