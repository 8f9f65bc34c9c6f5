/**
 * Where an uploaded file is stored and under what name. The current date
 * (as its ISO-8601 text) and the random number are parameters.
 */
module MulterConfig {

  const UploadRoot := "./uploads/"

  /**
   * The destination directory by form field: `video` files under `videos/`,
   * `thumbnail` files under `thumbnails/`, anything else in the upload root.
   */
  function Destination(fieldname: string): (path: string)
    ensures UploadRoot <= path
    ensures path == "./uploads/videos/" <==> fieldname == "video"
    ensures path == "./uploads/thumbnails/" <==> fieldname == "thumbnail"
    ensures path == UploadRoot <==> fieldname != "video" && fieldname != "thumbnail"
  {
    UploadRoot + (if fieldname == "video" then "videos/" else if fieldname == "thumbnail" then "thumbnails/" else "")
  }

  /** `s.split(sep)`: the pieces between separators, one more than there are separators. */
  function Split(s: string, sep: char): (parts: seq<string>)
    ensures |parts| >= 1
    decreases |s|
  {
    if s == [] then [[]]
    else
      var rest := Split(s[1..], sep);
      if s[0] == sep then [[]] + rest else [[s[0]] + rest[0]] + rest[1..]
  }

  /** `parts.join(sep)`. */
  function Join(parts: seq<string>, sep: char): string
    decreases |parts|
  {
    if parts == [] then []
    else if |parts| == 1 then parts[0]
    else parts[0] + [sep] + Join(parts[1..], sep)
  }

  /** Splitting and joining again on the same separator gives the text back, and no piece holds a separator. */
  lemma {:induction false} SplitJoin(s: string, sep: char)
    ensures Join(Split(s, sep), sep) == s
    ensures forall i | 0 <= i < |Split(s, sep)| :: sep !in Split(s, sep)[i]
    decreases |s|
  {
    if s != [] {
      var rest := Split(s[1..], sep);
      SplitJoin(s[1..], sep);
      if s[0] == sep {
        assert Split(s, sep)[1..] == rest;
      } else {
        var parts := Split(s, sep);
        if |rest| > 1 {
          assert parts[1..] == rest[1..];
          assert Join(rest, sep) == rest[0] + [sep] + Join(rest[1..], sep);
        }
        forall i | 0 <= i < |parts| ensures sep !in parts[i] {
          if i > 0 {
            assert parts[i] == rest[i];
          } else {
            assert sep !in rest[0];
          }
        }
      }
    }
  }

  /** A split yields a single piece exactly when the text holds no separator. */
  lemma {:induction false} SplitSingle(s: string, sep: char)
    ensures |Split(s, sep)| == 1 <==> sep !in s
    decreases |s|
  {
    if s != [] {
      SplitSingle(s[1..], sep);
      assert s == [s[0]] + s[1..];
    }
  }

  /** The last piece of a split is the text after the last separator, or all of it when there is none. */
  lemma {:induction false} SplitLast(s: string, sep: char)
    ensures var last := Split(s, sep)[|Split(s, sep)| - 1];
      && sep !in last
      && |last| <= |s| && s[|s| - |last|..] == last
      && (last == s <==> sep !in s)
      && (last != s ==> s[|s| - |last| - 1] == sep)
    decreases |s|
  {
    if s != [] {
      var rest := Split(s[1..], sep);
      var parts := Split(s, sep);
      SplitLast(s[1..], sep);
      SplitSingle(s[1..], sep);
      var restLast := rest[|rest| - 1];
      assert s == [s[0]] + s[1..];
      if s[0] == sep || |rest| > 1 {
        assert parts[|parts| - 1] == restLast;
        assert s[|s| - |restLast|..] == s[1..][|s[1..]| - |restLast|..];
      } else {
        assert parts == [[s[0]] + rest[0]];
      }
    }
  }

  /**
   * `originalname.split('.').pop()`: the text after the last dot, or the
   * whole name when it has no dot. It holds no dot and ends the name.
   */
  function Extension(originalname: string): (ext: string)
    ensures '.' !in ext
    ensures |ext| <= |originalname| && originalname[|originalname| - |ext|..] == ext
    ensures ext == originalname <==> '.' !in originalname
    ensures ext != originalname ==> originalname[|originalname| - |ext| - 1] == '.'
  {
    SplitLast(originalname, '.');
    var parts := Split(originalname, '.');
    parts[|parts| - 1]
  }

  /** `s.replace(/c/g, '')`: every `c` removed. */
  function RemoveAll(s: string, c: char): (r: string)
    ensures c !in r && |r| <= |s|
    decreases |s|
  {
    if s == [] then []
    else if s[0] == c then RemoveAll(s[1..], c)
    else [s[0]] + RemoveAll(s[1..], c)
  }

  lemma {:induction false} RemoveAllConcat(a: string, b: string, c: char)
    ensures RemoveAll(a + b, c) == RemoveAll(a, c) + RemoveAll(b, c)
    decreases |a|
  {
    if a == [] {
      assert a + b == b;
    } else {
      RemoveAllConcat(a[1..], b, c);
      assert (a + b)[1..] == a[1..] + b;
    }
  }

  lemma {:induction false} RemoveAllAbsent(s: string, c: char)
    requires c !in s
    ensures RemoveAll(s, c) == s
    decreases |s|
  {
    if s != [] {
      RemoveAllAbsent(s[1..], c);
    }
  }

  predicate IsDigit(ch: char) {
    '0' as int <= ch as int <= '9' as int
  }

  /** The text starts like `Date.prototype.toISOString`: `yyyy-MM-dd`. */
  predicate StartsAsIsoDate(iso: string) {
    && |iso| >= 10
    && iso[4] == '-' && iso[7] == '-'
    && (forall i | 0 <= i < 10 && i != 4 && i != 7 :: IsDigit(iso[i]))
  }

  /**
   * `iso.slice(0, 10).replace(/-/g, '')`: for an ISO timestamp, the eight
   * digits `yyyyMMdd`.
   */
  function DatePart(iso: string): (d: string)
    ensures '-' !in d && |d| <= 10
    ensures StartsAsIsoDate(iso) ==> d == iso[..4] + iso[5..7] + iso[8..10] && |d| == 8
    ensures StartsAsIsoDate(iso) ==> forall i | 0 <= i < |d| :: IsDigit(d[i])
  {
    var head := if |iso| <= 10 then iso else iso[..10];
    if StartsAsIsoDate(iso) then
      IsoDateDigits(iso);
      assert head == iso[..10];
      RemoveAll(head, '-')
    else
      RemoveAll(head, '-')
  }

  /** The dash-free head of an ISO timestamp is its year, month and day digits. */
  lemma IsoDateDigits(iso: string)
    requires StartsAsIsoDate(iso)
    ensures RemoveAll(iso[..10], '-') == iso[..4] + iso[5..7] + iso[8..10]
    ensures forall i | 0 <= i < 8 :: IsDigit((iso[..4] + iso[5..7] + iso[8..10])[i])
  {
    var year, month, day := iso[..4], iso[5..7], iso[8..10];
    assert iso[..10] == year + "-" + month + "-" + day;
    RemoveAllConcat(year + "-" + month + "-", day, '-');
    RemoveAllConcat(year + "-" + month, "-", '-');
    RemoveAllConcat(year + "-", month, '-');
    RemoveAllConcat(year, "-", '-');
    assert forall i | 0 <= i < 4 :: IsDigit(year[i]);
    assert forall i | 0 <= i < 2 :: IsDigit(month[i]) && IsDigit(day[i]);
    RemoveAllAbsent(year, '-');
    RemoveAllAbsent(month, '-');
    RemoveAllAbsent(day, '-');
  }

  function DigitChar(d: nat): (ch: char)
    requires d < 10
    ensures IsDigit(ch) && ch as int - '0' as int == d
  {
    ('0' as int + d) as char
  }

  /** The decimal text of a whole number, as JavaScript writes it: digits only, no leading zero. */
  function Decimal(n: nat): (s: string)
    ensures |s| >= 1 && (forall i | 0 <= i < |s| :: IsDigit(s[i]))
    ensures |s| > 1 ==> s[0] != '0'
    decreases n
  {
    if n < 10 then [DigitChar(n)] else Decimal(n / 10) + [DigitChar(n % 10)]
  }

  /** The number a digit string denotes. */
  function DigitsValue(s: string): nat
    requires forall i | 0 <= i < |s| :: IsDigit(s[i])
    decreases |s|
  {
    if s == [] then 0
    else
      var last := s[|s| - 1];
      assert IsDigit(last);
      DigitsValue(s[..|s| - 1]) * 10 + (last as int - '0' as int)
  }

  /** Reading the decimal text back gives the number. */
  lemma {:induction false} DecimalRoundTrip(n: nat)
    ensures DigitsValue(Decimal(n)) == n
    decreases n
  {
    if n >= 10 {
      DecimalRoundTrip(n / 10);
      var s, prefix := Decimal(n), Decimal(n / 10);
      assert s == prefix + [DigitChar(n % 10)];
      assert s[..|s| - 1] == prefix;
      assert DigitsValue(s) == DigitsValue(prefix) * 10 + n % 10;
    }
  }

  /**
   * The stored filename: the original name, `-`, the date digits, `-`, the
   * random number, `-`, the workspace id, `.`, and the original extension.
   * It starts with the original name and ends with `.` and the extension;
   * between the date's dash and that final dot sit the random number's digits,
   * a dash and the workspace id; for an ISO date the eight date digits follow
   * the name and a dash.
   */
  function Filename(originalname: string, isoDate: string, random: nat, workspaceId: string): (name: string)
    ensures originalname + "-" + DatePart(isoDate) + "-" <= name
    ensures |name| >= |Extension(originalname)| + 1
    ensures name[|name| - |Extension(originalname)| - 1..] == "." + Extension(originalname)
    ensures var afterDate := |originalname| + |DatePart(isoDate)| + 2;
      && afterDate <= |name| - |Extension(originalname)| - 1
      && name[afterDate..|name| - |Extension(originalname)| - 1] == Decimal(random) + "-" + workspaceId
    ensures StartsAsIsoDate(isoDate) ==>
              && name[|originalname| + 1..|originalname| + 9] == isoDate[..4] + isoDate[5..7] + isoDate[8..10]
              && name[|originalname| + 9] == '-'
  {
    var date := DatePart(isoDate);
    var head := originalname + "-" + date + "-";
    var middle := Decimal(random) + "-" + workspaceId;
    var tail := "." + Extension(originalname);
    var name := head + middle + tail;
    ThreeParts(head, middle, tail);
    ThreeParts(originalname + "-", date, "-");
    assert name[|originalname| + 1..|originalname| + 1 + |date|] == head[|originalname| + 1..|originalname| + 1 + |date|];
    name
  }

  /** Where each part of a three-part concatenation sits. */
  lemma ThreeParts(a: string, b: string, c: string)
    ensures a <= a + b + c
    ensures (a + b + c)[|a|..|a| + |b|] == b
    ensures (a + b + c)[|a| + |b|..] == c
  {
  }
}
