/** PropertiesHandler of handlers.py: reading a value out of server.properties and
    rewriting the file with str.replace. A Python value that may or may not be a string
    is an `Option<string>`: None stands for any value that is not a `str`. */
module PropertiesHandling {
  import opened Wrappers
  import opened FileSystem
  import Text
  import Descriptors

  const PropertiesName: string := "server.properties"
  const PortKey: string := "server-port"

  /** What `change_port` accepts, `str | int`. */
  datatype PortValue = PortText(text: string) | PortNumber(number: int)

  /** `str(new_port)`. */
  function PortString(v: PortValue): string
  {
    match v
    case PortText(s) => s
    case PortNumber(n) => if n < 0 then "-" + Text.Decimal(-n) else Text.Decimal(n)
  }

  /** A port given as a number is written as its decimal digits, which read back as it. */
  lemma PortStringOfNumber(n: nat)
    ensures forall k :: 0 <= k < |PortString(PortNumber(n))| ==> Text.IsDigit(PortString(PortNumber(n))[k])
    ensures Text.ParseDecimal(PortString(PortNumber(n))) == n
  {
    Text.ParseDecimalOfDecimal(n);
  }

  // ---------------------------------------------------------------------------
  // Reading
  // ---------------------------------------------------------------------------

  /** `open(path, "r")` and reading it all: text mode turns "\r\n" and "\r" into "\n". A
      directory cannot be opened, and an archive's bytes are not taken to be text. */
  function ReadText(fs: FS, p: Path): (r: Result<string, Error>)
    ensures r.Ok? <==> p in fs && fs[p].File?
    ensures r.Ok? ==> r.value == Text.UniversalNewlines(fs[p].text)
    ensures p !in fs ==> r == Err(NoSuchFile)
    ensures IsDir(fs, p) ==> r == Err(IsADirectory)
  {
    if p !in fs then Err(NoSuchFile)
    else match fs[p]
      case Dir => Err(IsADirectory)
      case Tar(_) => Err(NotText)
      case File(t) => Ok(Text.UniversalNewlines(t))
  }

  /** One line as `_find_value` takes it apart: stripped; skipped when it holds no "=";
      otherwise the key before the first "=" and the value after it. */
  function Entry(line: string): Option<(string, string)>
  {
    var s := Text.Strip(line);
    if s == "" || '=' !in s then None
    else
      var i := Text.FirstIndexOf(s, '=');
      Some((s[..i], s[i + 1..]))
  }

  /** A line is skipped exactly when its stripped text holds no "="; otherwise key, "="
      and value put together give the stripped text back, and the key holds no "=". */
  lemma EntryRejoins(line: string)
    ensures Entry(line).None? <==> '=' !in Text.Strip(line)
    ensures Entry(line).Some? ==> Text.Strip(line) == Entry(line).value.0 + "=" + Entry(line).value.1
                                  && '=' !in Entry(line).value.0
  {
    var s := Text.Strip(line);
    if s != "" && '=' in s {
      var i := Text.FirstIndexOf(s, '=');
      assert '=' !in s[..i] by {
        forall k | 0 <= k < i ensures s[..i][k] != '=' { assert s[..i][k] == s[k]; }
      }
      assert s == s[..i] + "=" + s[i + 1..];
    }
  }

  /** The steps of `Entry`, spelled out for a loop that takes them one by one. */
  lemma EntryParts(line: string)
    ensures var s := Text.Strip(line);
            && (s == "" || '=' !in s ==> Entry(line).None?)
            && (s != "" && '=' in s ==>
                  0 <= Text.FirstIndexOf(s, '=') < |s|
                  && Entry(line) == Some((s[..Text.FirstIndexOf(s, '=')], s[Text.FirstIndexOf(s, '=') + 1..])))
  {
  }

  predicate HasKey(line: string, key: string)
  {
    Entry(line).Some? && Entry(line).value.0 == key
  }

  /** A key without "=", newlines or whitespace at its ends, as a properties file has. */
  predicate PlainKey(k: string)
  {
    k != "" && '=' !in k && '\n' !in k && '\r' !in k && !Text.IsSpace(k[0]) && !Text.IsSpace(k[|k| - 1])
  }

  /** A value without newlines or trailing whitespace. */
  predicate PlainValue(v: string)
  {
    '\n' !in v && '\r' !in v && (v == "" || !Text.IsSpace(v[|v| - 1]))
  }

  /** A line written as "key=value" is read back as that key and value. */
  lemma EntryOf(k: string, v: string)
    requires PlainKey(k) && PlainValue(v)
    ensures Entry(k + "=" + v) == Some((k, v))
  {
    var s := k + "=" + v;
    Text.StripStripped(s);
    assert s[..|k|] == k;
    Text.FirstIndexOfAt(s, '=', |k|);
    assert s[|k| + 1..] == v;
  }

  /** The index of the first line whose key is `key`, or -1. */
  function FirstKeyIndex(lines: seq<string>, key: string): (i: int)
    ensures -1 <= i < |lines|
    ensures i >= 0 ==> HasKey(lines[i], key)
    ensures forall j :: 0 <= j < |lines| && (i < 0 || j < i) ==> !HasKey(lines[j], key)
  {
    if lines == [] then -1
    else if HasKey(lines[0], key) then 0
    else
      var i := FirstKeyIndex(lines[1..], key);
      assert forall j :: 1 <= j < |lines| ==> lines[j] == lines[1..][j - 1];
      if i < 0 then -1 else i + 1
  }

  /** What `_find_value` returns for those lines: the value on the first line with that
      key, or None when no line has it. */
  function FirstValue(lines: seq<string>, key: string): (r: Option<string>)
    ensures r.None? <==> forall j :: 0 <= j < |lines| ==> !HasKey(lines[j], key)
  {
    var i := FirstKeyIndex(lines, key);
    if i < 0 then None else Some(Entry(lines[i]).value.1)
  }

  /** The first line with a key decides, whatever the later lines say. */
  lemma FirstValueAt(lines: seq<string>, key: string, i: int, v: string)
    requires 0 <= i < |lines| && Entry(lines[i]) == Some((key, v))
    requires forall j :: 0 <= j < i ==> !HasKey(lines[j], key)
    ensures FirstKeyIndex(lines, key) == i && FirstValue(lines, key) == Some(v)
  {
  }

  /** `_find_value(param)`: a non-string key raises ValueError before the file is opened;
      otherwise the file is read and the first matching line's value returned. */
  function FindValueResult(fs: FS, p: Path, param: Option<string>): (r: Result<Option<string>, Error>)
    ensures param.None? ==> r == Err(WrongType)
    ensures param.Some? ==> (r.Ok? <==> ReadText(fs, p).Ok?)
    ensures r.Ok? ==> r.value == FirstValue(Text.FileLines(ReadText(fs, p).value), param.value)
  {
    if param.None? then Err(WrongType)
    else match ReadText(fs, p)
      case Err(e) => Err(e)
      case Ok(text) => Ok(FirstValue(Text.FileLines(text), param.value))
  }

  // ---------------------------------------------------------------------------
  // Rewriting
  // ---------------------------------------------------------------------------

  /** `_change(old, new)`: the type test rejects only the case where neither argument is a
      string; the file is read; `str.replace` raises TypeError on a non-string argument;
      otherwise every occurrence of `old` is replaced and the file written back. */
  function ChangeResult(fs: FS, p: Path, was: Option<string>, now: Option<string>): (r: Result<FS, Error>)
    requires WellFormed(fs)
    ensures was.None? && now.None? ==> r == Err(WrongType)
    ensures r.Ok? <==> was.Some? && now.Some? && ReadText(fs, p).Ok?
    ensures (was.None? || now.None?) && !(was.None? && now.None?) && ReadText(fs, p).Ok? ==> r == Err(NotAString)
    ensures r.Ok? ==> WellFormed(r.value) && r.value.Keys == fs.Keys
                      && r.value == fs[p := File(Text.Replace(ReadText(fs, p).value, was.value, now.value))]
  {
    if was.None? && now.None? then Err(WrongType)
    else match ReadText(fs, p)
      case Err(e) => Err(e)
      case Ok(text) =>
        if was.None? || now.None? then Err(NotAString)
        else
          PutFileWellFormed(fs, p, File(Text.Replace(text, was.value, now.value)));
          Ok(fs[p := File(Text.Replace(text, was.value, now.value))])
  }

  /** `_change_param(param, new_value)`: the current value of `param` replaced, everywhere
      in the file, by `new_value`. A key that no line has makes the current value None,
      which str.replace refuses. */
  function ChangeParamResult(fs: FS, p: Path, param: Option<string>, now: Option<string>): (r: Result<FS, Error>)
    requires WellFormed(fs)
    ensures r.Ok? ==> WellFormed(r.value)
  {
    match FindValueResult(fs, p, param)
    case Err(e) => Err(e)
    case Ok(found) => ChangeResult(fs, p, found, now)
  }

  /** Replacing a value by itself leaves the lines as they were; only the line endings
      are written back as "\n". */
  lemma ChangeToSameValue(fs: FS, p: Path, v: string)
    requires WellFormed(fs) && p in fs && fs[p].File?
    ensures ChangeResult(fs, p, Some(v), Some(v)) == Ok(fs[p := File(Text.UniversalNewlines(fs[p].text))])
  {
    Text.ReplaceIdentity(Text.UniversalNewlines(fs[p].text), v);
  }

  /** Setting a parameter to the value it has rewrites nothing but the line endings. */
  lemma ChangeParamToCurrentValue(fs: FS, p: Path, param: string)
    requires WellFormed(fs) && p in fs && fs[p].File?
    requires FirstValue(Text.FileLines(Text.UniversalNewlines(fs[p].text)), param).Some?
    ensures var v := FirstValue(Text.FileLines(Text.UniversalNewlines(fs[p].text)), param).value;
            ChangeParamResult(fs, p, Some(param), Some(v)) == Ok(fs[p := File(Text.UniversalNewlines(fs[p].text))])
  {
    var v := FirstValue(Text.FileLines(Text.UniversalNewlines(fs[p].text)), param).value;
    ChangeToSameValue(fs, p, v);
  }

  /** A key that no line has is refused with TypeError, after the file was read and before
      anything is written. */
  lemma ChangeParamMissingKey(fs: FS, p: Path, param: string, now: string)
    requires WellFormed(fs) && p in fs && fs[p].File?
    requires forall j :: 0 <= j < |Text.FileLines(Text.UniversalNewlines(fs[p].text))|
                         ==> !HasKey(Text.FileLines(Text.UniversalNewlines(fs[p].text))[j], param)
    ensures ChangeParamResult(fs, p, Some(param), Some(now)) == Err(NotAString)
  {
  }

  /** A value that does not occur leaves the text as read. */
  lemma ChangeAbsentValue(fs: FS, p: Path, was: string, now: string)
    requires WellFormed(fs) && p in fs && fs[p].File? && was != ""
    requires !Text.Occurs(Text.UniversalNewlines(fs[p].text), was)
    ensures ChangeResult(fs, p, Some(was), Some(now)) == Ok(fs[p := File(Text.UniversalNewlines(fs[p].text))])
  {
    Text.ReplaceAbsent(Text.UniversalNewlines(fs[p].text), was, now);
  }

  // ---------------------------------------------------------------------------
  // What the code does against what it evidently means
  // ---------------------------------------------------------------------------

  /** Lines without line terminators, joined by "\n", are read back as those lines. */
  lemma LinesOf(lines: seq<string>)
    requires |lines| >= 1 && forall k :: 0 <= k < |lines| ==> '\n' !in lines[k] && '\r' !in lines[k]
    ensures Text.UniversalNewlines(Text.Join(lines, '\n')) == Text.Join(lines, '\n')
    ensures Text.FileLines(Text.Join(lines, '\n')) == lines
  {
    Text.JoinWithout(lines, '\n', '\r');
    Text.UniversalNewlinesPlain(Text.Join(lines, '\n'));
    Text.SplitJoin(lines, '\n');
  }

  lemma JoinTwo(a: string, b: string, c: char)
    ensures Text.Join([a, b], c) == a + [c] + b
  {
    assert [a, b][1..] == [b];
  }

  /** A "key=value" line holds no line terminator. */
  lemma PlainLine(k: string, v: string)
    requires PlainKey(k) && PlainValue(v)
    ensures '\n' !in k + "=" + v && '\r' !in k + "=" + v
  {
  }

  /** Two "key=value" lines read as those two lines. */
  lemma TwoLines(k1: string, v1: string, k2: string, v2: string)
    requires PlainKey(k1) && PlainValue(v1) && PlainKey(k2) && PlainValue(v2)
    ensures var t := k1 + "=" + v1 + "\n" + k2 + "=" + v2;
            Text.UniversalNewlines(t) == t && Text.FileLines(t) == [k1 + "=" + v1, k2 + "=" + v2]
  {
    var l1, l2 := k1 + "=" + v1, k2 + "=" + v2;
    JoinTwo(l1, l2, '\n');
    assert k1 + "=" + v1 + "\n" + k2 + "=" + v2 == l1 + ['\n'] + l2;
    PlainLine(k1, v1);
    PlainLine(k2, v2);
    LinesOf([l1, l2]);
  }

  /** In a file of two "key=value" lines, each key reads as its own value. */
  lemma {:induction false} PairValues(k1: string, v1: string, k2: string, v2: string)
    requires PlainKey(k1) && PlainValue(v1) && PlainKey(k2) && PlainValue(v2) && k1 != k2
    ensures var lines := Text.FileLines(k1 + "=" + v1 + "\n" + k2 + "=" + v2);
            FirstValue(lines, k1) == Some(v1) && FirstValue(lines, k2) == Some(v2)
  {
    var lines := [k1 + "=" + v1, k2 + "=" + v2];
    assert Text.FileLines(k1 + "=" + v1 + "\n" + k2 + "=" + v2) == lines by {
      TwoLines(k1, v1, k2, v2);
    }
    assert Entry(lines[0]) == Some((k1, v1)) by {
      EntryOf(k1, v1);
    }
    assert Entry(lines[1]) == Some((k2, v2)) by {
      EntryOf(k2, v2);
    }
    FirstValueAt(lines, k1, 0, v1);
    FirstValueAt(lines, k2, 1, v2);
  }

  /** Replacing a one-character value that occurs in neither key rewrites both values. */
  lemma ReplaceBothValues(k1: string, k2: string, c: char, d: char)
    requires c !in k1 && c !in k2 && c != '=' && c != '\n'
    ensures Text.Replace(k1 + "=" + [c] + "\n" + k2 + "=" + [c], [c], [d])
            == k1 + "=" + [d] + "\n" + k2 + "=" + [d]
  {
    var t := k1 + "=" + [c] + "\n" + k2 + "=" + [c];
    var t' := k1 + "=" + [d] + "\n" + k2 + "=" + [d];
    Text.ReplaceChar(t, c, d);
    var r := Text.Replace(t, [c], [d]);
    forall k | 0 <= k < |t| ensures r[k] == t'[k] {
      if k < |k1| {
        assert t[k] == k1[k] && t'[k] == k1[k];
      } else if k > |k1| + 2 && k < |k1| + 3 + |k2| {
        assert t[k] == k2[k - |k1| - 3] && t'[k] == k2[k - |k1| - 3];
      }
    }
  }

  /** `_change_param` replaces the value text everywhere, not on the parameter's line: with
      two keys holding the same one-character value, changing the first changes the
      second as well (for instance server-port and query.port, both 1, and change_port(2)
      rewriting both). */
  lemma ChangeParamRewritesOtherKeys(fs: FS, p: Path, k1: string, k2: string, c: char, d: char)
    requires WellFormed(fs) && PlainKey(k1) && PlainKey(k2) && k1 != k2 && c !in k1 && c !in k2
    requires c != '=' && c != '\n' && c != '\r' && !Text.IsSpace(c)
    requires d != '\n' && d != '\r' && !Text.IsSpace(d)
    requires p in fs && fs[p] == File(k1 + "=" + [c] + "\n" + k2 + "=" + [c])
    ensures FirstValue(Text.FileLines(fs[p].text), k2) == Some([c])
    ensures var r := ChangeParamResult(fs, p, Some(k1), Some([d]));
            r.Ok? && r.value[p].File? && FirstValue(Text.FileLines(r.value[p].text), k2) == Some([d])
  {
    var t := k1 + "=" + [c] + "\n" + k2 + "=" + [c];
    TwoLines(k1, [c], k2, [c]);
    PairValues(k1, [c], k2, [c]);
    assert FindValueResult(fs, p, Some(k1)) == Ok(Some([c]));
    ReplaceBothValues(k1, k2, c, d);
    assert ChangeParamResult(fs, p, Some(k1), Some([d])) == Ok(fs[p := File(k1 + "=" + [d] + "\n" + k2 + "=" + [d])]);
    PairValues(k1, [d], k2, [d]);
  }

  /** The rewrite `_change_param` evidently means: only the first line with that key is
      replaced, by "key=new"; every other line is kept. None when no line has the key. */
  function SetParam(text: string, param: string, now: string): Option<string>
  {
    var lines := Text.FileLines(text);
    var i := FirstKeyIndex(lines, param);
    if i < 0 then None else Some(Text.Join(lines[i := param + "=" + now], '\n'))
  }

  /** `_change_param` as evidently intended; the errors are the ones of the code. */
  function ChangeParamIntended(fs: FS, p: Path, param: Option<string>, now: Option<string>): (r: Result<FS, Error>)
    requires WellFormed(fs)
    ensures r.Ok? ==> WellFormed(r.value) && r.value.Keys == fs.Keys
  {
    if param.None? then Err(WrongType)
    else match ReadText(fs, p)
      case Err(e) => Err(e)
      case Ok(text) =>
        if now.None? then Err(NotAString)
        else match SetParam(text, param.value, now.value)
          case None => Err(NotAString)
          case Some(text') =>
            PutFileWellFormed(fs, p, File(text'));
            Ok(fs[p := File(text')])
  }

  /** The lines of a text as read hold no line terminator. */
  lemma ReadLinesPlain(text: string)
    requires '\r' !in text
    ensures forall k :: 0 <= k < |Text.FileLines(text)| ==> '\n' !in Text.FileLines(text)[k] && '\r' !in Text.FileLines(text)[k]
  {
    Text.UniversalNewlinesPlain(text);
    forall k | 0 <= k < |Text.FileLines(text)| ensures '\r' !in Text.FileLines(text)[k] {
      Text.SplitWithout(text, '\n', '\r', k);
    }
  }

  /** What `SetParam` writes reads back as the old lines with the one replaced, and the
      parameter then has the new value. */
  lemma {:induction false} SetParamLines(text: string, param: string, now: string)
    requires '\r' !in text && PlainKey(param) && PlainValue(now)
    requires FirstKeyIndex(Text.FileLines(text), param) >= 0
    ensures var lines := Text.FileLines(text);
            var i := FirstKeyIndex(lines, param);
            && SetParam(text, param, now).Some?
            && Text.UniversalNewlines(SetParam(text, param, now).value) == SetParam(text, param, now).value
            && Text.FileLines(SetParam(text, param, now).value) == lines[i := param + "=" + now]
            && FirstValue(lines[i := param + "=" + now], param) == Some(now)
  {
    var lines := Text.FileLines(text);
    var i := FirstKeyIndex(lines, param);
    var lines' := lines[i := param + "=" + now];
    assert forall k :: 0 <= k < |lines'| ==> '\n' !in lines'[k] && '\r' !in lines'[k] by {
      PlainLine(param, now);
      ReadLinesPlain(text);
    }
    LinesOf(lines');
    EntryOf(param, now);
    SetFirstKeyLine(lines, param, param + "=" + now, now);
  }

  /** Replacing the first line with a key by another line with that key makes its value
      the one found. */
  lemma SetFirstKeyLine(lines: seq<string>, key: string, line: string, v: string)
    requires FirstKeyIndex(lines, key) >= 0 && Entry(line) == Some((key, v))
    ensures FirstValue(lines[FirstKeyIndex(lines, key) := line], key) == Some(v)
  {
    var i := FirstKeyIndex(lines, key);
    var lines' := lines[i := line];
    forall j | 0 <= j < i ensures !HasKey(lines'[j], key) {
      assert lines'[j] == lines[j];
    }
    FirstValueAt(lines', key, i, v);
  }

  /** The intended rewrite changes the parameter's line and no other: the file then reads
      as the same lines with that one replaced, and the parameter has the new value. */
  lemma ChangeParamIntendedSetsOnlyThatLine(fs: FS, p: Path, param: string, now: string)
    requires WellFormed(fs) && p in fs && fs[p].File? && PlainKey(param) && PlainValue(now)
    requires FirstValue(Text.FileLines(Text.UniversalNewlines(fs[p].text)), param).Some?
    ensures var lines := Text.FileLines(Text.UniversalNewlines(fs[p].text));
            var i := FirstKeyIndex(lines, param);
            var r := ChangeParamIntended(fs, p, Some(param), Some(now));
            && r.Ok? && r.value[p].File?
            && Text.FileLines(r.value[p].text) == lines[i := param + "=" + now]
            && FirstValue(Text.FileLines(r.value[p].text), param) == Some(now)
  {
    var text := Text.UniversalNewlines(fs[p].text);
    SetParamLines(text, param, now);
    assert ChangeParamIntended(fs, p, Some(param), Some(now)) == Ok(fs[p := File(SetParam(text, param, now).value)]);
  }

  /** A line without the key is not the first with it. */
  lemma PastNonKey(lines: seq<string>, key: string, i: int)
    requires 0 <= i < |lines| && !HasKey(lines[i], key)
    requires FirstKeyIndex(lines, key) < 0 || FirstKeyIndex(lines, key) >= i
    ensures FirstKeyIndex(lines, key) < 0 || FirstKeyIndex(lines, key) >= i + 1
  {
  }

  /** The loop of `_find_value`: each line stripped, skipped without "=", split at the
      first "=", and the value returned at the first line with that key. */
  method FindInLines(lines: seq<string>, key: string) returns (r: Option<string>)
    ensures r == FirstValue(lines, key)
  {
    var i := 0;
    while i < |lines|
      invariant 0 <= i <= |lines|
      invariant FirstKeyIndex(lines, key) < 0 || FirstKeyIndex(lines, key) >= i
    {
      var line := Text.Strip(lines[i]);
      EntryParts(lines[i]);
      if line != "" && '=' in line {
        var eq := Text.FirstIndexOf(line, '=');
        if line[..eq] == key {
          FirstValueAt(lines, key, i, line[eq + 1..]);
          return Some(line[eq + 1..]);
        }
      }
      assert !HasKey(lines[i], key);
      PastNonKey(lines, key, i);
      i := i + 1;
    }
    return None;
  }

  // ---------------------------------------------------------------------------
  // The handler
  // ---------------------------------------------------------------------------

  class PropertiesHandler {
    const serverDir: Path
    const propertiesFile: Path
    const disk: Disk

    ghost predicate Valid()
      reads this, disk
    {
      disk.Valid() && propertiesFile == serverDir + [PropertiesName]
    }

    constructor (dir: Path, d: Disk)
      requires d.Valid()
      ensures serverDir == dir && disk == d && Valid()
    {
      serverDir, propertiesFile, disk := dir, dir + [PropertiesName], d;
    }

    /** `PropertiesHandler(server_dir)`: the directory is bound first (descriptors.py's
        ServerDir, which may create it); then server.properties must exist, as anything
        (FileNotFoundError otherwise, with the directory left as the binding made it). */
    static method Create(v: Descriptors.Value, scriptDir: Path, cwd: Path, d: Disk)
      returns (r: Result<PropertiesHandler, Error>)
      requires d.Valid()
      modifies d
      ensures d.Valid()
      ensures match Descriptors.BindServerDir(v, scriptDir, cwd, old(d.fs))
              case Ok(b) =>
                && d.fs == b.fs
                && (b.dir + [PropertiesName] !in b.fs ==> r == Err(NoSuchFile))
                && (b.dir + [PropertiesName] in b.fs ==>
                      r.Ok? && fresh(r.value) && r.value.serverDir == b.dir && r.value.disk == d
                      && r.value.Valid())
              case Err(e) => r == Err(e) && d.fs == old(d.fs)
    {
      match Descriptors.BindServerDir(v, scriptDir, cwd, d.fs)
      case Ok(b) =>
        d.fs := b.fs;
        if b.dir + [PropertiesName] !in d.fs {
          r := Err(NoSuchFile);
        } else {
          var h := new PropertiesHandler(b.dir, d);
          r := Ok(h);
        }
      case Err(e) =>
        r := Err(e);
    }

    /** `_find_value(param)`: the lines are read one by one, and the first with that key
        gives its value. */
    method FindValue(param: Option<string>) returns (r: Result<Option<string>, Error>)
      requires Valid()
      ensures r == FindValueResult(disk.fs, propertiesFile, param)
    {
      if param.None? {
        return Err(WrongType);
      }
      var read := ReadText(disk.fs, propertiesFile);
      if read.Err? {
        return Err(read.error);
      }
      var found := FindInLines(Text.FileLines(read.value), param.value);
      return Ok(found);
    }

    /** `_change(old, new)`. */
    method Change(was: Option<string>, now: Option<string>) returns (err: Option<Error>)
      requires Valid()
      modifies disk
      ensures Valid()
      ensures match ChangeResult(old(disk.fs), propertiesFile, was, now)
              case Ok(fs') => err == None && disk.fs == fs'
              case Err(e) => err == Some(e) && disk.fs == old(disk.fs)
    {
      match ChangeResult(disk.fs, propertiesFile, was, now) {
        case Ok(fs') =>
          disk.fs := fs';
          err := None;
        case Err(e) =>
          err := Some(e);
      }
    }

    /** `_change_param(param, new_value)`. */
    method ChangeParam(param: Option<string>, now: Option<string>) returns (err: Option<Error>)
      requires Valid()
      modifies disk
      ensures Valid()
      ensures match ChangeParamResult(old(disk.fs), propertiesFile, param, now)
              case Ok(fs') => err == None && disk.fs == fs'
              case Err(e) => err == Some(e) && disk.fs == old(disk.fs)
    {
      var found := FindValue(param);
      if found.Err? {
        return Some(found.error);
      }
      err := Change(found.value, now);
    }

    /** `change_port(new_port)`. */
    method ChangePort(port: PortValue) returns (err: Option<Error>)
      requires Valid()
      modifies disk
      ensures Valid()
      ensures match ChangeParamResult(old(disk.fs), propertiesFile, Some(PortKey), Some(PortString(port)))
              case Ok(fs') => err == None && disk.fs == fs'
              case Err(e) => err == Some(e) && disk.fs == old(disk.fs)
    {
      err := ChangeParam(Some(PortKey), Some(PortString(port)));
    }
  }
}
