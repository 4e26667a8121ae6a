/** The string handling of the /extract_data handler: isolating the base64 payload of the
    image (backend/src/index.ts, line 46), stripping Markdown code fences from the model's
    reply (line 124) and naming the spreadsheet after a timestamp (lines 209-213). */
module Text {
  import opened Results
  import opened JsonModel

  // ---------------------------------------------------------------------------------------
  // Payload isolation

  /** `s.split(sep)` for a one-character separator: the text between separators, in order. */
  function Split(s: string, sep: char): (fields: seq<string>)
    ensures |fields| >= 1
    ensures forall i :: 0 <= i < |fields| ==> sep !in fields[i]
    decreases |s|
  {
    if s == [] then [""]
    else if s[0] == sep then [""] + Split(s[1..], sep)
    else
      var rest := Split(s[1..], sep);
      [[s[0]] + rest[0]] + rest[1..]
  }

  /** `fields.join(sep)`. */
  function Join(fields: seq<string>, sep: char): string
    requires |fields| >= 1
    decreases |fields|
  {
    if |fields| == 1 then fields[0] else fields[0] + [sep] + Join(fields[1..], sep)
  }

  /** Joining the fields back gives the string that was split. */
  lemma {:induction false} JoinSplit(s: string, sep: char)
    ensures Join(Split(s, sep), sep) == s
    decreases |s|
  {
    if s != [] {
      JoinSplit(s[1..], sep);
      var rest := Split(s[1..], sep);
      if s[0] == sep {
        assert s == [sep] + s[1..];
      } else if |rest| == 1 {
        assert s == [s[0]] + s[1..];
      } else {
        assert Split(s, sep)[1..] == rest[1..];
        assert s == [s[0]] + s[1..];
      }
    }
  }

  /** Splitting a join of separator-free fields gives those fields back. */
  lemma {:induction false} SplitJoin(fields: seq<string>, sep: char)
    requires |fields| >= 1 && forall i :: 0 <= i < |fields| ==> sep !in fields[i]
    ensures Split(Join(fields, sep), sep) == fields
    decreases |fields|
  {
    if |fields| == 1 {
      SplitFree(fields[0], [], sep);
      assert fields[0] + [] == fields[0];
    } else {
      SplitJoin(fields[1..], sep);
      var tail := Join(fields[1..], sep);
      SplitFree(fields[0], [sep] + tail, sep);
      SplitAtSep(tail, sep);
      var rest := Split([sep] + tail, sep);
      assert rest == [""] + fields[1..];
      assert rest[0] == "" && rest[1..] == fields[1..];
      assert fields[0] + [sep] + tail == fields[0] + ([sep] + tail);
      assert fields[0] + rest[0] == fields[0];
      assert fields == [fields[0]] + fields[1..];
    }
  }

  lemma SplitAtSep(t: string, sep: char)
    ensures Split([sep] + t, sep) == [""] + Split(t, sep)
  {
    assert ([sep] + t)[1..] == t;
  }

  /** A separator-free head becomes the first field. */
  lemma {:induction false} SplitFree(a: string, t: string, sep: char)
    requires sep !in a && (t == [] || t[0] == sep)
    ensures Split(a + t, sep) == [a + Split(t, sep)[0]] + Split(t, sep)[1..]
    ensures Split(t, sep)[0] == ""
    decreases |a|
  {
    if t != [] {
      assert Split(t, sep) == [""] + Split(t[1..], sep);
    }
    if a != [] {
      SplitFree(a[1..], t, sep);
      var st := Split(t, sep);
      var rest := Split(a[1..] + t, sep);
      assert (a + t)[0] == a[0] && (a + t)[1..] == a[1..] + t;
      assert Split(a + t, sep) == [[a[0]] + rest[0]] + rest[1..];
      assert rest[0] == a[1..] + st[0] && rest[1..] == st[1..];
      assert [a[0]] + (a[1..] + st[0]) == a + st[0];
    } else {
      assert a + t == t;
    }
  }

  /** `image.split(',')[1] || image`: the second comma-separated field unless it is missing
      or empty. */
  function Payload(image: string): string {
    var fields := Split(image, ',');
    if |fields| > 1 && fields[1] != "" then fields[1] else image
  }

  /** Lines 43 and 46: a falsy `image` is rejected with status 400, a value that is not a
      string has no `split` and throws, any string gives its payload. */
  function IsolatePayload(image: Json): Result<string, Error> {
    if !Truthy(image) then Failure(ImageRequired)
    else if !image.Str? then Failure(TypeError)
    else Success(Payload(image.s))
  }

  /** Without a comma the payload is the whole string. */
  lemma PayloadNoComma(image: string)
    requires ',' !in image
    ensures Payload(image) == image
  {
    SplitFree(image, [], ',');
    assert image + [] == image;
  }

  /** With a comma, the payload is the text between the first and the second comma (or the
      end) when that text is not empty, and the whole string otherwise. */
  lemma PayloadAfterComma(head: string, field: string, tail: string)
    requires ',' !in head && ',' !in field && (tail == [] || tail[0] == ',')
    ensures var image := head + [','] + field + tail;
      Payload(image) == if field != "" then field else image
  {
    var rest := field + tail;
    var image := head + ([','] + rest);
    assert head + [','] + field + tail == image;
    SplitFree(field, tail, ',');
    var second := Split(rest, ',')[0];
    assert second == field + Split(tail, ',')[0];
    assert second == field;
    SplitAtSep(rest, ',');
    SplitFree(head, [','] + rest, ',');
    assert Split(image, ',')[1] == Split([','] + rest, ',')[1];
    assert Split(image, ',')[1] == second;
  }

  /** The checks of line 43 come first: an absent, null, false or empty `image` is rejected. */
  lemma IsolatePayloadSpec(image: Json)
    ensures IsolatePayload(image) == Failure(ImageRequired) <==> !Truthy(image)
    ensures IsolatePayload(image).Success? <==> image.Str? && image.s != ""
    ensures image.Str? && image.s != "" && ',' !in image.s ==> IsolatePayload(image) == Success(image.s)
  {
    if image.Str? && ',' !in image.s {
      PayloadNoComma(image.s);
    }
  }

  // ---------------------------------------------------------------------------------------
  // Code-fence stripping

  /** `s` begins with "```". */
  predicate Fence(s: string) {
    |s| >= 3 && s[0] == '`' && s[1] == '`' && s[2] == '`'
  }

  /** `s` begins with "```json". */
  predicate JsonFence(s: string) {
    |s| >= 7 && Fence(s) && s[3] == 'j' && s[4] == 's' && s[5] == 'o' && s[6] == 'n'
  }

  /** `s.replace(/```json|```/g, '')`: left to right, at each position "```json" is tried
      before "```", and the scan resumes after what was removed. */
  function StripFences(s: string): (r: string)
    ensures |r| <= |s|
    decreases |s|
  {
    if JsonFence(s) then StripFences(s[7..])
    else if Fence(s) then StripFences(s[3..])
    else if s == [] then []
    else [s[0]] + StripFences(s[1..])
  }

  /** The characters `String.prototype.trim` removes: ECMAScript white space and line
      terminators. */
  predicate IsSpace(c: char) {
    c == '\t' || c == '\n' || c == '\U{B}' || c == '\U{C}' || c == '\r' || c == ' ' ||
    c == '\U{A0}' || c == '\U{1680}' || ('\U{2000}' <= c <= '\U{200A}') ||
    c == '\U{2028}' || c == '\U{2029}' || c == '\U{202F}' || c == '\U{205F}' ||
    c == '\U{3000}' || c == '\U{FEFF}'
  }

  function TrimStart(s: string): (r: string)
    ensures |r| <= |s| && r == s[|s| - |r|..]
    ensures forall i :: 0 <= i < |s| - |r| ==> IsSpace(s[i])
    ensures r == [] || !IsSpace(r[0])
    decreases |s|
  {
    if s != [] && IsSpace(s[0]) then TrimStart(s[1..]) else s
  }

  function TrimEnd(s: string): (r: string)
    ensures |r| <= |s| && r == s[..|r|]
    ensures forall i :: |r| <= i < |s| ==> IsSpace(s[i])
    ensures r == [] || !IsSpace(r[|r| - 1])
    decreases |s|
  {
    if s != [] && IsSpace(s[|s| - 1]) then TrimEnd(s[..|s| - 1]) else s
  }

  function Trim(s: string): string {
    TrimEnd(TrimStart(s))
  }

  /** Line 124 before `JSON.parse`. */
  function Clean(reply: string): string {
    Trim(StripFences(reply))
  }

  /** Where `trim` cuts: the white space before `i` and from `j` on. */
  lemma TrimBounds(s: string) returns (i: int, j: int)
    ensures 0 <= i <= j <= |s| && Trim(s) == s[i..j]
    ensures forall k :: 0 <= k < i ==> IsSpace(s[k])
    ensures forall k :: j <= k < |s| ==> IsSpace(s[k])
  {
    var t := TrimStart(s);
    var r := TrimEnd(t);
    i := |s| - |t|;
    j := i + |r|;
    assert t == s[i..];
    assert r == t[..|r|];
    forall k | j <= k < |s| ensures IsSpace(s[k]) {
      assert s[k] == t[k - i];
    }
  }

  /** `trim` leaves no white space at either end. */
  lemma TrimEnds(s: string)
    ensures Trim(s) == [] || (!IsSpace(Trim(s)[0]) && !IsSpace(Trim(s)[|Trim(s)| - 1]))
  {
    var t := TrimStart(s);
    var r := TrimEnd(t);
    if r != [] {
      assert r[0] == t[0];
    }
  }

  /** `trim` keeps a contiguous part of its input and removes only white space around it. */
  lemma TrimSpec(s: string)
    ensures var r := Trim(s);
      exists i, j :: 0 <= i <= j <= |s| && r == s[i..j] &&
        (forall k :: 0 <= k < i ==> IsSpace(s[k])) &&
        (forall k :: j <= k < |s| ==> IsSpace(s[k])) &&
        (r == [] || (!IsSpace(r[0]) && !IsSpace(r[|r| - 1])))
  {
    var i, j := TrimBounds(s);
    TrimEnds(s);
  }

  /** Cleaning never lengthens the reply. */
  lemma CleanNotLonger(reply: string)
    ensures |Clean(reply)| <= |reply|
  {
  }

  /** "```" occurs somewhere in `s`. */
  predicate HasFence(s: string) {
    exists i :: 0 <= i < |s| && Fence(s[i..])
  }

  lemma {:induction false} StripNoFence(s: string)
    requires !HasFence(s)
    ensures StripFences(s) == s
    decreases |s|
  {
    if s != [] {
      assert s[0..] == s;
      assert !HasFence(s[1..]);
      StripNoFence(s[1..]);
      assert s == [s[0]] + s[1..];
    }
  }

  /** A reply without "```" is only trimmed. */
  lemma CleanWithoutFence(reply: string)
    requires !HasFence(reply)
    ensures Clean(reply) == Trim(reply)
  {
    StripNoFence(reply);
  }

  /** Text without a backtick passes through the stripping unchanged. */
  lemma {:induction false} StripPlain(p: string, q: string)
    requires '`' !in p
    ensures StripFences(p + q) == p + StripFences(q)
    decreases |p|
  {
    if p == [] {
      assert p + q == q;
    } else {
      var s := p + q;
      assert s[0] == p[0] && s[0] != '`';
      assert s[1..] == p[1..] + q;
      StripPlain(p[1..], q);
      assert StripFences(s) == [p[0]] + (p[1..] + StripFences(q));
      assert p == [p[0]] + p[1..];
    }
  }

  lemma StripFencedBlock(body: string)
    requires '`' !in body
    ensures StripFences("```json\n" + body + "\n```") == "\n" + body + "\n"
  {
    var inner := "\n" + body + "\n";
    var reply := "```json\n" + body + "\n```";
    assert reply == "```json" + (inner + "```");
    assert JsonFence(reply) && reply[7..] == inner + "```";
    assert '`' !in inner;
    StripPlain(inner, "```");
    assert StripFences("```") == StripFences("");
    assert inner + "" == inner;
  }

  lemma TrimStartSpace(c: char, x: string)
    requires IsSpace(c)
    ensures TrimStart([c] + x) == TrimStart(x)
  {
    assert ([c] + x)[1..] == x;
  }

  lemma TrimEndSpace(x: string, c: char)
    requires IsSpace(c)
    ensures TrimEnd(x + [c]) == TrimEnd(x)
  {
    assert (x + [c])[..|x|] == x;
  }

  lemma TrimNewlines(body: string)
    requires body == [] || (!IsSpace(body[0]) && !IsSpace(body[|body| - 1]))
    ensures Trim("\n" + body + "\n") == body
  {
    assert "\n" + body + "\n" == ['\n'] + (body + ['\n']);
    TrimStartSpace('\n', body + ['\n']);
    if body == [] {
      assert body + ['\n'] == ['\n'];
      TrimStartSpace('\n', []);
    } else {
      assert (body + ['\n'])[0] == body[0];
      assert TrimStart(body + ['\n']) == body + ['\n'];
      TrimEndSpace(body, '\n');
    }
  }

  /** A reply fenced as a Markdown JSON block, "```json\n" + body + "\n```", cleans to the
      body when the body has no backtick and does not begin or end with white space. */
  lemma CleanFencedBlock(body: string)
    requires '`' !in body
    requires body == [] || (!IsSpace(body[0]) && !IsSpace(body[|body| - 1]))
    ensures Clean("```json\n" + body + "\n```") == body
  {
    StripFencedBlock(body);
    TrimNewlines(body);
  }

  // ---------------------------------------------------------------------------------------
  // File name

  /** `s.replace(/[:.-]/g, '')`. */
  function RemoveSeparators(s: string): (r: string)
    ensures forall i :: 0 <= i < |r| ==> r[i] != ':' && r[i] != '.' && r[i] != '-'
    decreases |s|
  {
    if s == [] then []
    else (if s[0] in {':', '.', '-'} then [] else [s[0]]) + RemoveSeparators(s[1..])
  }

  /** `s.replace('T', '_')`: a string pattern replaces only its first occurrence. */
  function ReplaceFirstT(s: string): string
    decreases |s|
  {
    if s == [] then []
    else if s[0] == 'T' then ['_'] + s[1..]
    else [s[0]] + ReplaceFirstT(s[1..])
  }

  /** `s.slice(0, n)`. */
  function Take(s: string, n: nat): (r: string)
    ensures |r| <= n && |r| <= |s| && r == s[..|r|]
    ensures |s| >= n ==> |r| == n
    ensures |s| <= n ==> r == s
  {
    if |s| <= n then s else s[..n]
  }

  /** Lines 209-213 from the `toISOString()` text on. */
  function FileName(iso: string): string {
    "data_" + Take(ReplaceFirstT(RemoveSeparators(iso)), 15) + ".xlsx"
  }

  predicate Digits(s: string) {
    forall i :: 0 <= i < |s| ==> '0' <= s[i] <= '9'
  }

  lemma {:induction false} RemoveSeparatorsConcat(a: string, b: string)
    ensures RemoveSeparators(a + b) == RemoveSeparators(a) + RemoveSeparators(b)
    decreases |a|
  {
    if a != [] {
      assert (a + b)[1..] == a[1..] + b;
      RemoveSeparatorsConcat(a[1..], b);
    } else {
      assert a + b == b;
    }
  }

  lemma {:induction false} RemoveSeparatorsDigits(s: string)
    requires Digits(s)
    ensures RemoveSeparators(s) == s
    decreases |s|
  {
    if s != [] {
      RemoveSeparatorsDigits(s[1..]);
      assert s == [s[0]] + s[1..];
    }
  }

  lemma {:induction false} ReplaceFirstTAfterDigits(a: string, b: string)
    requires Digits(a)
    ensures ReplaceFirstT(a + "T" + b) == a + "_" + b
    decreases |a|
  {
    if a != [] {
      assert (a + "T" + b)[1..] == a[1..] + "T" + b;
      ReplaceFirstTAfterDigits(a[1..], b);
      assert a == [a[0]] + a[1..];
    } else {
      assert a + "T" + b == "T" + b;
    }
  }

  lemma RemoveSeparatorsAppend(prefix: string, removed: string, part: string, kept: string)
    requires RemoveSeparators(prefix) == removed
    requires RemoveSeparators(part) == kept
    ensures RemoveSeparators(prefix + part) == removed + kept
  {
    RemoveSeparatorsConcat(prefix, part);
  }

  lemma RemoveFromDate(year: string, month: string, day: string)
    requires Digits(year) && Digits(month) && Digits(day)
    ensures RemoveSeparators(year + "-" + month + "-" + day) == year + month + day
  {
    RemoveSeparatorsDigits(year); RemoveSeparatorsDigits(month); RemoveSeparatorsDigits(day);
    assert RemoveSeparators("-") == "";
    RemoveSeparatorsAppend(year, year, "-", "");
    RemoveSeparatorsAppend(year + "-", year, month, month);
    RemoveSeparatorsAppend(year + "-" + month, year + month, "-", "");
    RemoveSeparatorsAppend(year + "-" + month + "-", year + month, day, day);
  }

  lemma RemoveFromTime(hour: string, minute: string, second: string, millis: string)
    requires Digits(hour) && Digits(minute) && Digits(second) && Digits(millis)
    ensures RemoveSeparators(hour + ":" + minute + ":" + second + "." + millis + "Z")
         == hour + minute + second + millis + "Z"
  {
    RemoveSeparatorsDigits(hour); RemoveSeparatorsDigits(minute); RemoveSeparatorsDigits(second);
    RemoveSeparatorsDigits(millis);
    assert RemoveSeparators(":") == "" && RemoveSeparators(".") == "" && RemoveSeparators("Z") == "Z";
    RemoveSeparatorsAppend(hour, hour, ":", "");
    RemoveSeparatorsAppend(hour + ":", hour, minute, minute);
    RemoveSeparatorsAppend(hour + ":" + minute, hour + minute, ":", "");
    RemoveSeparatorsAppend(hour + ":" + minute + ":", hour + minute, second, second);
    RemoveSeparatorsAppend(hour + ":" + minute + ":" + second, hour + minute + second, ".", "");
    RemoveSeparatorsAppend(hour + ":" + minute + ":" + second + ".", hour + minute + second, millis, millis);
    RemoveSeparatorsAppend(hour + ":" + minute + ":" + second + "." + millis, hour + minute + second + millis, "Z", "Z");
  }

  /** For an ISO-8601 timestamp "YYYY-MM-DDTHH:mm:ss.sssZ" the file is named
      "data_YYYYMMDD_HHmmss.xlsx". */
  lemma FileNameOfIso(year: string, month: string, day: string, hour: string, minute: string,
                      second: string, millis: string)
    requires |year| == 4 && |month| == 2 && |day| == 2
    requires |hour| == 2 && |minute| == 2 && |second| == 2 && |millis| == 3
    requires Digits(year) && Digits(month) && Digits(day)
    requires Digits(hour) && Digits(minute) && Digits(second) && Digits(millis)
    ensures var date, time := year + month + day, hour + minute + second;
      FileName(year + "-" + month + "-" + day + "T" + hour + ":" + minute + ":" + second + "." + millis + "Z")
      == "data_" + date + "_" + time + ".xlsx"
  {
    var date, time := year + month + day, hour + minute + second;
    var datePart := year + "-" + month + "-" + day;
    var timePart := hour + ":" + minute + ":" + second + "." + millis + "Z";
    var iso := year + "-" + month + "-" + day + "T" + hour + ":" + minute + ":" + second + "." + millis + "Z";
    assert iso == datePart + "T" + timePart;
    RemoveFromDate(year, month, day);
    RemoveFromTime(hour, minute, second, millis);
    assert RemoveSeparators("T") == "T";
    RemoveSeparatorsAppend(datePart, date, "T", "T");
    var rest := time + millis + "Z";
    assert hour + minute + second + millis + "Z" == rest;
    RemoveSeparatorsAppend(datePart + "T", date + "T", timePart, rest);
    assert Digits(date);
    ReplaceFirstTAfterDigits(date, rest);
    var replaced := date + "_" + rest;
    assert replaced[..15] == date + "_" + time;
    assert "data_" + (date + "_" + time) == "data_" + date + "_" + time;
  }
}
