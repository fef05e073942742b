/** The text handling of `src/wifi/web_server.cpp`: the form-body parser,
    the `"key":"value"` field extractor of the JSON endpoints, the bounded
    serial log buffer and the request-line split with its routing. Sockets,
    headers and HTML are left to the I/O layer. */
module WebServer {
  import opened ArduinoString
  import opened UrlDecoding

  // ---------------------------------------------------------------- forms

  /** The pieces of `s` from index `start` on, between '&' separators, in
      order: the scan `parseFormData` makes with `indexOf('&', start)`. */
  function PiecesFrom(s: seq<char>, start: nat): (r: seq<seq<char>>)
    requires start <= |s|
    decreases |s| - start
    ensures |r| >= 1
  {
    var k := IndexOfChar(s, '&', start);
    if k == -1 then [s[start..]] else [s[start..k]] + PiecesFrom(s, k + 1)
  }

  /** The pieces of a whole body. */
  function SplitAmp(s: seq<char>): seq<seq<char>> {
    PiecesFrom(s, 0)
  }

  /** No piece of the scan contains a separator. */
  lemma {:induction false} PiecesHaveNoAmp(s: seq<char>, start: nat)
    requires start <= |s|
    ensures forall i :: 0 <= i < |PiecesFrom(s, start)| ==> '&' !in PiecesFrom(s, start)[i]
    decreases |s| - start
  {
    var k := IndexOfChar(s, '&', start);
    if k != -1 {
      PiecesHaveNoAmp(s, k + 1);
      assert PiecesFrom(s, start) == [s[start..k]] + PiecesFrom(s, k + 1);
      assert '&' !in s[start..k];
    } else {
      assert '&' !in s[start..];
    }
  }

  /** The pieces joined back with '&'. */
  function JoinAmp(pieces: seq<seq<char>>): seq<char>
    requires |pieces| >= 1
    decreases |pieces|
  {
    if |pieces| == 1 then pieces[0] else pieces[0] + "&" + JoinAmp(pieces[1..])
  }

  /** Joining a piece in front of at least one more adds one separator. */
  lemma JoinCons(head: seq<char>, tail: seq<seq<char>>)
    requires |tail| >= 1
    ensures JoinAmp([head] + tail) == head + "&" + JoinAmp(tail)
  {
    assert ([head] + tail)[1..] == tail;
  }

  /** The scan loses nothing: joining the pieces from `start` gives the
      text from `start` back. */
  lemma {:induction false} JoinUndoesPieces(s: seq<char>, start: nat)
    requires start <= |s|
    ensures JoinAmp(PiecesFrom(s, start)) == s[start..]
    decreases |s| - start
  {
    var k := IndexOfChar(s, '&', start);
    if k != -1 {
      var head, rest := s[start..k], PiecesFrom(s, k + 1);
      assert PiecesFrom(s, start) == [head] + rest;
      JoinCons(head, rest);
      JoinUndoesPieces(s, k + 1);
      SliceAroundSeparator(s, start, k);
    } else {
      assert PiecesFrom(s, start) == [s[start..]];
    }
  }

  /** The text from `start` is the part before the separator at `k`, the
      separator, and the part after it. */
  lemma SliceAroundSeparator(s: seq<char>, start: nat, k: nat)
    requires start <= k < |s| && s[k] == '&'
    ensures s[start..] == s[start..k] + "&" + s[k + 1..]
  {
  }

  /** Splitting loses nothing: joining the pieces gives the body back. */
  lemma JoinUndoesSplit(s: seq<char>)
    ensures JoinAmp(SplitAmp(s)) == s
  {
    JoinUndoesPieces(s, 0);
  }

  /** The fields `parseFormData` fills in. */
  datatype FormFields = FormFields(ssid: seq<char>, password: seq<char>)

  /** The key of a piece: the text before its first '=', if it has one. */
  function KeyOf(pair: seq<char>): (k: seq<char>)
    requires '=' in pair
  {
    pair[..IndexOfChar(pair, '=', 0)]
  }

  /** The value of a piece: the decoded text after its first '='. */
  function ValueOf(pair: seq<char>): seq<char>
    requires '=' in pair
  {
    UrlDecode(pair[IndexOfChar(pair, '=', 0) + 1..])
  }

  /** One piece applied to the fields: a piece with '=' and the key "ssid"
      or "password" overwrites that field; every other piece is ignored. */
  function ApplyPair(f: FormFields, pair: seq<char>): (r: FormFields)
  {
    var eq := IndexOfChar(pair, '=', 0);
    if eq == -1 then f
    else
      var key := pair[..eq];
      var value := UrlDecode(pair[eq + 1..]);
      if key == "ssid" then f.(ssid := value)
      else if key == "password" then f.(password := value)
      else f
  }

  /** The fields after the pieces are applied in order, from empty fields. */
  function ApplyPairs(pairs: seq<seq<char>>): FormFields
    decreases |pairs|
  {
    if |pairs| == 0 then FormFields("", "")
    else ApplyPair(ApplyPairs(pairs[..|pairs| - 1]), pairs[|pairs| - 1])
  }

  /** The piece `pair` carries the key `key`. */
  predicate HasKey(pair: seq<char>, key: seq<char>) {
    '=' in pair && KeyOf(pair) == key
  }

  /** The field of `f` named by `key`. */
  function Field(f: FormFields, key: seq<char>): seq<char> {
    if key == "ssid" then f.ssid else f.password
  }

  /** One piece changes the field named `key` exactly when it carries that
      key. */
  lemma ApplyPairField(f: FormFields, pair: seq<char>, key: seq<char>)
    requires key == "ssid" || key == "password"
    ensures Field(ApplyPair(f, pair), key) == if HasKey(pair, key) then ValueOf(pair) else Field(f, key)
  {
    assert "ssid" != "password" by { assert |"ssid"| != |"password"|; }
  }

  /** One piece sets the ssid when it carries the key "ssid" and the
      password when it carries "password", to its decoded value; any other
      piece, and a piece without '=', leaves both fields as they were. */
  lemma ApplyPairFields(f: FormFields, pair: seq<char>)
    ensures ApplyPair(f, pair).ssid == if HasKey(pair, "ssid") then ValueOf(pair) else f.ssid
    ensures ApplyPair(f, pair).password == if HasKey(pair, "password") then ValueOf(pair) else f.password
  {
    ApplyPairField(f, pair, "ssid");
    ApplyPairField(f, pair, "password");
  }

  /** A field no piece carries stays empty. */
  lemma {:induction false} MissingKeyIsEmpty(pairs: seq<seq<char>>, key: seq<char>)
    requires key == "ssid" || key == "password"
    requires forall i {:trigger HasKey(pairs[i], key)} :: 0 <= i < |pairs| ==> !HasKey(pairs[i], key)
    ensures Field(ApplyPairs(pairs), key) == ""
    decreases |pairs|
  {
    if |pairs| > 0 {
      var n := |pairs| - 1;
      var init := pairs[..n];
      assert ApplyPairs(pairs) == ApplyPair(ApplyPairs(init), pairs[n]);
      assert forall i {:trigger HasKey(init[i], key)} :: 0 <= i < n ==> !HasKey(init[i], key) by {
        forall i | 0 <= i < n
          ensures !HasKey(init[i], key)
        {
          assert init[i] == pairs[i];
        }
      }
      MissingKeyIsEmpty(init, key);
      ApplyPairField(ApplyPairs(init), pairs[n], key);
    }
  }

  /** Later pieces win: a field is the decoded value of the last piece that
      carries its key. */
  lemma {:induction false} LastPairWins(pairs: seq<seq<char>>, key: seq<char>, i: nat)
    requires key == "ssid" || key == "password"
    requires i < |pairs| && HasKey(pairs[i], key)
    requires forall j {:trigger HasKey(pairs[j], key)} :: i < j < |pairs| ==> !HasKey(pairs[j], key)
    ensures Field(ApplyPairs(pairs), key) == ValueOf(pairs[i])
    decreases |pairs|
  {
    var n := |pairs| - 1;
    var init := pairs[..n];
    var f := ApplyPairs(init);
    assert Field(ApplyPairs(pairs), key)
           == if HasKey(pairs[n], key) then ValueOf(pairs[n]) else Field(f, key) by {
      assert ApplyPairs(pairs) == ApplyPair(f, pairs[n]);
      ApplyPairField(f, pairs[n], key);
    }
    if i < n {
      assert !HasKey(pairs[n], key);
      assert Field(f, key) == ValueOf(pairs[i]) by {
        assert init[i] == pairs[i];
        assert forall j {:trigger HasKey(init[j], key)} :: i < j < n ==> !HasKey(init[j], key) by {
          forall j | i < j < n
            ensures !HasKey(init[j], key)
          {
            assert init[j] == pairs[j];
          }
        }
        LastPairWins(init, key, i);
      }
    }
  }

  /** The fields a body yields: the pieces of the body, applied in order. */
  function FormOf(body: seq<char>): FormFields {
    ApplyPairs(SplitAmp(body))
  }

  /** Applying one more piece extends the fold. */
  lemma ApplyPairsSnoc(pieces: seq<seq<char>>, n: nat)
    requires n < |pieces|
    ensures ApplyPairs(pieces[..n + 1]) == ApplyPair(ApplyPairs(pieces[..n]), pieces[n])
  {
    assert pieces[..n + 1][..n] == pieces[..n];
  }

  /** The treatment of one piece inside `parseFormData`: split at the first
      '=', decode the value, and store it under "ssid" or "password". */
  method TakePair(ssidValue: seq<char>, passValue: seq<char>, pair: seq<char>)
    returns (ssid': seq<char>, pass': seq<char>)
    ensures FormFields(ssid', pass') == ApplyPair(FormFields(ssidValue, passValue), pair)
    ensures ssid' == if HasKey(pair, "ssid") then ValueOf(pair) else ssidValue
    ensures pass' == if HasKey(pair, "password") then ValueOf(pair) else passValue
  {
    ssid', pass' := ssidValue, passValue;
    var eqIndex := IndexOfChar(pair, '=', 0);
    if eqIndex != -1 {
      var key := Substring(pair, 0, eqIndex);
      var value := UrlDecode(Substring(pair, eqIndex + 1, |pair|));
      if key == "ssid" {
        ssid' := value;
      } else if key == "password" {
        pass' := value;
      }
    }
    assert FormFields(ssid', pass') == ApplyPair(FormFields(ssidValue, passValue), pair);
    ApplyPairFields(FormFields(ssidValue, passValue), pair);
  }

  /** One round of the scan: the piece from `start` is the next piece of the
      split, and the scan either moves past its '&' or has seen the last
      piece. */
  lemma ScanStep(body: seq<char>, start: nat, pieces: seq<seq<char>>, done: nat)
    requires start <= |body| && done < |pieces|
    requires PiecesFrom(body, start) == pieces[done..]
    ensures var end := IndexOfChar(body, '&', start);
            var pair := if end == -1 then body[start..] else body[start..end];
            && pieces[done] == pair
            && ApplyPairs(pieces[..done + 1]) == ApplyPair(ApplyPairs(pieces[..done]), pair)
            && (end != -1 ==> done + 1 < |pieces| && PiecesFrom(body, end + 1) == pieces[done + 1..])
            && (end == -1 ==> done + 1 == |pieces|)
  {
    assert pieces[done + 1..] == pieces[done..][1..];
    assert pieces[done] == pieces[done..][0];
    ApplyPairsSnoc(pieces, done);
  }

  /** The scan ends on an empty remainder: its single empty piece has no
      '=' and changes nothing. */
  lemma ScanEnd(pieces: seq<seq<char>>, done: nat)
    requires done < |pieces| && pieces[done..] == [[]]
    ensures ApplyPairs(pieces) == ApplyPairs(pieces[..done])
  {
    assert pieces == pieces[..done] + [[]];
    ApplyPairsSnoc(pieces, done);
    assert pieces[..done + 1] == pieces;
  }

  /** `parseFormData` as the firmware writes it: a scan over the body with
      `indexOf('&')`, treating each piece that has a '='. It reports success
      when both fields are non-empty. */
  method ParseFormData(body: seq<char>) returns (ssidValue: seq<char>, passValue: seq<char>, ok: bool)
    ensures FormFields(ssidValue, passValue) == FormOf(body)
    ensures ok <==> |ssidValue| > 0 && |passValue| > 0
  {
    ssidValue := "";
    passValue := "";
    ghost var pieces := SplitAmp(body);
    ghost var done := 0;
    var start: nat := 0;
    var end := IndexOfChar(body, '&', start);
    while end != -1 || start < |body|
      invariant start <= |body|
      invariant end == IndexOfChar(body, '&', start)
      invariant 0 <= done < |pieces|
      invariant PiecesFrom(body, start) == pieces[done..]
      invariant FormFields(ssidValue, passValue) == ApplyPairs(pieces[..done])
      decreases |body| - start
    {
      ScanStep(body, start, pieces, done);
      var pair;
      if end == -1 {
        pair := Substring(body, start, |body|);
      } else {
        pair := Substring(body, start, end);
      }
      ssidValue, passValue := TakePair(ssidValue, passValue, pair);
      done := done + 1;

      if end == -1 {
        break;
      }
      start := end + 1;
      end := IndexOfChar(body, '&', start);
    }
    if done < |pieces| {
      assert end == -1 && start == |body| && body[start..] == [];
      assert PiecesFrom(body, start) == [[]];
      ScanEnd(pieces, done);
    } else {
      assert pieces[..done] == pieces;
    }
    ok := |ssidValue| > 0 && |passValue| > 0;
  }

  /** A body made of two pieces with no '&' in either splits into them. */
  lemma SplitTwo(a: seq<char>, b: seq<char>)
    requires '&' !in a && '&' !in b
    ensures SplitAmp(a + "&" + b) == [a, b]
  {
    var body := a + "&" + b;
    var m := |a| + 1;
    assert body[..|a|] == a && body[m..] == b;
    IndexOfCharAfterRun(body, '&', 0, a);
    assert forall i :: m <= i < |body| ==> body[i] == b[i - m];
    assert IndexOfChar(body, '&', m) == -1;
    assert PiecesFrom(body, m) == [b];
    assert PiecesFrom(body, 0) == [a] + PiecesFrom(body, m);
  }

  /** The body a browser posts for the two fields:
      `ssid=<encoded>&password=<encoded>`. */
  function FormBody(ssid: seq<char>, password: seq<char>): seq<char>
    requires IsByteText(ssid) && IsByteText(password)
  {
    ("ssid=" + FormEncode(ssid)) + "&" + ("password=" + FormEncode(password))
  }

  /** The piece `key=` followed by a value with no '=' has that key and, as
      its value, the decoded text. */
  lemma PieceParts(key: seq<char>, encoded: seq<char>)
    requires '=' !in key
    ensures var pair := key + "=" + encoded;
            '=' in pair && KeyOf(pair) == key && ValueOf(pair) == UrlDecode(encoded)
  {
    var pair := key + "=" + encoded;
    assert pair[..|key|] == key && pair[|key| + 1..] == encoded;
    IndexOfCharAfterRun(pair, '=', 0, key);
  }

  /** Two pieces are applied one after the other. */
  lemma ApplyTwoPieces(a: seq<char>, b: seq<char>)
    ensures ApplyPairs([a, b]) == ApplyPair(ApplyPair(FormFields("", ""), a), b)
  {
    var pieces := [a, b];
    assert pieces[..1] == [a] && pieces[..2] == pieces;
    ApplyPairsSnoc(pieces, 0);
    ApplyPairsSnoc(pieces, 1);
    assert ApplyPairs(pieces[..0]) == FormFields("", "");
  }

  /** An "ssid=" piece sets the ssid to the decoded value. */
  lemma SsidPiece(f: FormFields, encoded: seq<char>)
    ensures ApplyPair(f, "ssid=" + encoded) == f.(ssid := UrlDecode(encoded))
  {
    PieceParts("ssid", encoded);
    assert "ssid=" + encoded == "ssid" + "=" + encoded;
  }

  /** A "password=" piece sets the password to the decoded value. */
  lemma PasswordPiece(f: FormFields, encoded: seq<char>)
    ensures ApplyPair(f, "password=" + encoded) == f.(password := UrlDecode(encoded))
  {
    PieceParts("password", encoded);
    assert "password=" + encoded == "password" + "=" + encoded;
    assert "password" != "ssid" by { assert |"ssid"| != |"password"|; }
  }

  /** A piece `key=` followed by form-encoded text contains no '&'. */
  lemma EncodedPieceHasNoAmp(key: seq<char>, value: seq<char>)
    requires '&' !in key
    requires IsByteText(value)
    ensures '&' !in key + "=" + FormEncode(value)
  {
    FormEncodeHasNoSeparators(value);
  }

  /** The body of an encoded form splits into its two pieces. */
  lemma FormBodySplits(ssid: seq<char>, password: seq<char>)
    requires IsByteText(ssid)
    requires IsByteText(password)
    ensures SplitAmp(FormBody(ssid, password))
            == ["ssid=" + FormEncode(ssid), "password=" + FormEncode(password)]
  {
    EncodedPieceHasNoAmp("ssid", ssid);
    EncodedPieceHasNoAmp("password", password);
    assert "ssid" + "=" == "ssid=" && "password" + "=" == "password=";
    SplitTwo("ssid=" + FormEncode(ssid), "password=" + FormEncode(password));
  }

  /** The two pieces of an encoded form set the two fields. */
  lemma FormPiecesApply(ssid: seq<char>, password: seq<char>)
    requires IsByteText(ssid)
    requires IsByteText(password)
    ensures ApplyPairs(["ssid=" + FormEncode(ssid), "password=" + FormEncode(password)])
            == FormFields(ssid, password)
  {
    ApplyTwoPieces("ssid=" + FormEncode(ssid), "password=" + FormEncode(password));
    SsidPiece(FormFields("", ""), FormEncode(ssid));
    PasswordPiece(FormFields(UrlDecode(FormEncode(ssid)), ""), FormEncode(password));
    DecodeUndoesFormEncode(ssid);
    DecodeUndoesFormEncode(password);
  }

  /** A body of one "ssid=" piece and one "password=" piece, each value form
      encoded, parses back to the two values. */
  lemma FormRoundTrip(ssid: seq<char>, password: seq<char>)
    requires IsByteText(ssid)
    requires IsByteText(password)
    ensures FormOf(FormBody(ssid, password)) == FormFields(ssid, password)
  {
    FormBodySplits(ssid, password);
    FormPiecesApply(ssid, password);
  }

  /** Form encoding never produces a '&' or a '='. */
  lemma {:induction false} FormEncodeHasNoSeparators(s: seq<char>)
    requires IsByteText(s)
    ensures '&' !in FormEncode(s) && '=' !in FormEncode(s)
    decreases |s|
  {
    if |s| > 0 {
      FormEncodeHasNoSeparators(s[1..]);
    }
  }

  // ------------------------------------------------------ quoted fields

  /** The text `"key":"` that opens a field in a JSON body. */
  function FieldOpener(key: seq<char>): seq<char> {
    "\"" + key + "\":\""
  }

  /** The field extraction of `handleSaveWiFi` and `handleControl`: the text
      between the first `"key":"` and the next '"'; empty when the opener is
      missing, no '"' follows it, or the value is empty. */
  function QuotedField(body: seq<char>, key: seq<char>): (r: seq<char>)
    ensures '"' !in r
    ensures |r| > 0 ==> var p := IndexOfStr(body, FieldOpener(key), 0);
                        && p != -1
                        && var start := p + |FieldOpener(key)|;
                           && start + |r| < |body|
                           && body[start..start + |r|] == r
                           && body[start + |r|] == '"'
    ensures var p := IndexOfStr(body, FieldOpener(key), 0);
            var start := p + |FieldOpener(key)|;
            (p != -1 && start < |body| && body[start] != '"'
             && exists j :: start < j < |body| && body[j] == '"') ==> |r| > 0
  {
    var opener := FieldOpener(key);
    var start := IndexOfStr(body, opener, 0) + |opener|;
    assert start >= 0;
    var end := IndexOfChar(body, '"', start);
    if start > |opener| - 1 && end > start then Substring(body, start, end) else ""
  }

  /** A field whose opener is first found at `p` reads the text after the
      opener up to the next quote, when that text is not empty. */
  lemma QuotedFieldAt(body: seq<char>, key: seq<char>, p: nat, value: seq<char>)
    requires IndexOfStr(body, FieldOpener(key), 0) == p
    requires var start := p + |FieldOpener(key)|;
             && start + |value| < |body| && body[start..start + |value|] == value
             && '"' !in value && body[start + |value|] == '"' && |value| > 0
    ensures QuotedField(body, key) == value
  {
    var opener := FieldOpener(key);
    var start := p + |opener|;
    IndexOfCharAfterRun(body, '"', start, value);
    var end := start + |value|;
    assert IndexOfStr(body, opener, 0) + |opener| == start > |opener| - 1;
    assert IndexOfChar(body, '"', start) == end > start;
    assert Substring(body, start, end) == value;
  }

  /** A body without an opener for `key` has an empty field. */
  lemma QuotedFieldMissing(body: seq<char>, key: seq<char>)
    requires IndexOfStr(body, FieldOpener(key), 0) == -1
    ensures QuotedField(body, key) == ""
  {
  }

  /** No opener for `key` starts inside `prefix`, even one running on into
      the opener that follows it. */
  predicate NoEarlierOpener(prefix: seq<char>, key: seq<char>) {
    forall i :: 0 <= i < |prefix| ==> !OccursAt(prefix + FieldOpener(key), FieldOpener(key), i)
  }

  /** A prefix without '"' holds no opener, since every opener starts with
      '"'. */
  lemma QuoteFreePrefix(prefix: seq<char>, key: seq<char>)
    requires '"' !in prefix
    ensures NoEarlierOpener(prefix, key)
  {
    forall i | 0 <= i < |prefix| ensures !OccursAt(prefix + FieldOpener(key), FieldOpener(key), i) {
      assert (prefix + FieldOpener(key))[i] == prefix[i];
      assert FieldOpener(key)[0] == '"';
    }
  }

  /** The first opener of a body is the one right after a prefix that holds
      none. */
  lemma OpenerAfterPrefix(prefix: seq<char>, key: seq<char>, tail: seq<char>)
    requires NoEarlierOpener(prefix, key)
    ensures IndexOfStr(prefix + FieldOpener(key) + tail, FieldOpener(key), 0) == |prefix|
  {
    var opener := FieldOpener(key);
    var head := prefix + opener;
    var body := head + tail;
    assert OccursAt(body, opener, |prefix|) by {
      assert body[|prefix|..|prefix| + |opener|] == opener;
    }
    forall i | 0 <= i < |prefix| ensures !OccursAt(body, opener, i) {
      assert i + |opener| <= |head|;
      assert body[i..i + |opener|] == head[i..i + |opener|];
      assert !OccursAt(head, opener, i);
    }
    IndexOfStrIs(body, opener, 0, |prefix|);
  }

  /** A field written as `"key":"value"` after text that holds no opener for
      `key` is read back, for any value with no '"'. */
  lemma QuotedFieldRoundTrip(prefix: seq<char>, key: seq<char>, value: seq<char>, rest: seq<char>)
    requires NoEarlierOpener(prefix, key) && '"' !in value
    ensures QuotedField(prefix + FieldOpener(key) + value + "\"" + rest, key) == value
  {
    var opener := FieldOpener(key);
    var body := prefix + opener + value + "\"" + rest;
    var start := |prefix| + |opener|;
    assert IndexOfStr(body, opener, 0) == |prefix| by {
      assert body == prefix + opener + (value + "\"" + rest);
      OpenerAfterPrefix(prefix, key, value + "\"" + rest);
    }
    if |value| > 0 {
      assert body[start..start + |value|] == value && body[start + |value|] == '"';
      QuotedFieldAt(body, key, |prefix|, value);
    } else {
      assert body[start] == '"';
    }
  }

  /** An opener for `key` at `i`: a quote, the key with no quote in it, a
      quote and a colon. */
  lemma OpenerShape(s: seq<char>, key: seq<char>, i: nat)
    requires '"' !in key
    ensures OccursAt(s, FieldOpener(key), i) ==>
              && i + |key| + 2 < |s|
              && s[i + |key| + 1] == '"' && s[i + |key| + 2] == ':'
              && forall m :: i < m < i + |key| + 1 ==> s[m] != '"'
  {
    var opener := FieldOpener(key);
    if OccursAt(s, opener, i) {
      assert s[i..i + |opener|] == opener;
      forall m | i < m < i + |key| + 1 ensures s[m] != '"' {
        assert s[m] == opener[m - i] == key[m - i - 1];
      }
      assert s[i + |key| + 1] == opener[|key| + 1];
      assert s[i + |key| + 2] == opener[|key| + 2];
    }
  }

  /** An opener for `key` cannot start at the quote `i` when the next quote
      after it, at `q`, is not where the key's closing quote and colon would
      be. */
  lemma NotOpenerBetweenQuotes(s: seq<char>, key: seq<char>, i: nat, q: nat)
    requires '"' !in key
    requires i < q < |s| && s[q] == '"'
    requires forall m :: i < m < q ==> s[m] != '"'
    requires q != i + |key| + 1 || q + 1 >= |s| || s[q + 1] != ':'
    ensures !OccursAt(s, FieldOpener(key), i)
  {
    OpenerShape(s, key, i);
  }

  /** The JSON object `{"k1":"a","k2":"b"}` with two string members, as
      `JSON.stringify` writes it for values with nothing to escape. */
  function JsonPair(k1: seq<char>, a: seq<char>, k2: seq<char>, b: seq<char>): seq<char> {
    "{" + FieldOpener(k1) + a + "\"," + FieldOpener(k2) + b + "\"}"
  }

  /** The JSON object `{"k":"a"}` with one string member. */
  function JsonSingle(k: seq<char>, a: seq<char>): seq<char> {
    "{" + FieldOpener(k) + a + "\"}"
  }

  /** The quotes of a text that starts `{"k1":"a"` followed by one more
      character that is neither a quote nor a colon, for a key of length
      `n` and a value of length `la`, both without quotes. */
  predicate JsonHead(s: seq<char>, n: nat, la: nat) {
    && n + 6 + la < |s|
    && s[0] == '{' && s[1] == '"' && s[n + 2] == '"' && s[n + 3] == ':' && s[n + 4] == '"'
    && s[n + 5 + la] == '"' && s[n + 6 + la] != '"' && s[n + 6 + la] != ':'
    && (forall m :: 2 <= m < n + 2 ==> s[m] != '"')
    && (forall m :: n + 5 <= m < n + 5 + la ==> s[m] != '"')
  }

  /** No opener for a key of another length starts before the value's
      closing quote. */
  lemma NoOpenerInHead(s: seq<char>, n: nat, la: nat, k2: seq<char>)
    requires '"' !in k2 && n != |k2| && |k2| >= 2
    requires JsonHead(s, n, la)
    ensures forall i :: 0 <= i < n + 5 + la ==> !OccursAt(s, FieldOpener(k2), i)
  {
    forall i | 0 <= i < n + 5 + la ensures !OccursAt(s, FieldOpener(k2), i) {
      if i == 1 {
        NotOpenerBetweenQuotes(s, k2, 1, n + 2);
      } else if i == n + 2 {
        NotOpenerBetweenQuotes(s, k2, n + 2, n + 4);
      } else if i == n + 4 {
        NotOpenerBetweenQuotes(s, k2, n + 4, n + 5 + la);
      } else {
        assert s[i] != '"';
        assert FieldOpener(k2)[0] == '"';
      }
    }
  }

  /** The text before the second member of `JsonPair` holds no opener for
      the second key when the keys differ in length. */
  lemma SecondOpenerFirst(k1: seq<char>, a: seq<char>, k2: seq<char>)
    requires '"' !in k1 && '"' !in k2 && '"' !in a
    requires |k1| != |k2| && |k2| >= 2
    ensures NoEarlierOpener("{" + FieldOpener(k1) + a + "\",", k2)
  {
    var p := "{" + FieldOpener(k1) + a + "\",";
    var s := p + FieldOpener(k2);
    var n := |k1|;
    assert JsonHead(s, n, |a|) && s[n + 7 + |a|] == '"' by {
      assert s == "{" + FieldOpener(k1) + a + "\"" + ("," + FieldOpener(k2));
      JsonLayout(k1, a, "," + FieldOpener(k2));
    }
    assert |p| == n + 7 + |a|;
    forall i | 0 <= i < |p| ensures !OccursAt(s, FieldOpener(k2), i) {
      if i < n + 5 + |a| {
        NoOpenerInHead(s, n, |a|, k2);
      } else if i == n + 5 + |a| {
        NotOpenerBetweenQuotes(s, k2, i, n + 7 + |a|);
      } else {
        assert s[i] != '"' && FieldOpener(k2)[0] == '"';
      }
    }
  }

  /** Where the quotes of `{"k1":"a"` followed by `tail` sit. */
  lemma JsonLayout(k1: seq<char>, a: seq<char>, tail: seq<char>)
    requires '"' !in k1 && '"' !in a
    ensures var s := "{" + FieldOpener(k1) + a + "\"" + tail;
            var n := |k1|;
            && |s| == n + 6 + |a| + |tail|
            && s[0] == '{' && s[1] == '"' && s[n + 2] == '"' && s[n + 3] == ':' && s[n + 4] == '"'
            && s[n + 5 + |a|] == '"'
            && (forall m :: 2 <= m < n + 2 ==> s[m] != '"')
            && (forall m :: n + 5 <= m < n + 5 + |a| ==> s[m] != '"')
            && (forall m :: 0 <= m < |tail| ==> s[n + 6 + |a| + m] == tail[m])
  {
    var s := "{" + FieldOpener(k1) + a + "\"" + tail;
    var n := |k1|;
    assert s == ("{\"" + k1 + "\":\"") + a + "\"" + tail;
    forall m | 2 <= m < n + 2 ensures s[m] != '"' {
      assert s[m] == k1[m - 2];
    }
    forall m | n + 5 <= m < n + 5 + |a| ensures s[m] != '"' {
      assert s[m] == a[m - n - 5];
    }
  }

  /** A one-member object holds no opener for a key of another length: the
      page's commands without a value carry no value field. */
  lemma NoOtherOpenerInSingle(k1: seq<char>, a: seq<char>, k2: seq<char>)
    requires '"' !in k1 && '"' !in k2 && '"' !in a
    requires |k1| != |k2| && |k2| >= 2
    ensures IndexOfStr(JsonSingle(k1, a), FieldOpener(k2), 0) == -1
  {
    var s := JsonSingle(k1, a);
    var n := |k1|;
    assert JsonHead(s, n, |a|) && |s| == n + 7 + |a| by {
      JsonLayout(k1, a, "}");
    }
    NoOpenerInHead(s, n, |a|, k2);
    forall i | n + 5 + |a| <= i < |s| ensures !OccursAt(s, FieldOpener(k2), i) {
      assert i + |FieldOpener(k2)| > |s|;
    }
  }

  /** Both members of a two-member object are read back: the first because
      only '{' comes before it, the second because nothing before it looks
      like its opener. */
  lemma JsonPairFields(k1: seq<char>, a: seq<char>, k2: seq<char>, b: seq<char>)
    requires '"' !in k1 && '"' !in k2 && '"' !in a && '"' !in b
    requires |k1| != |k2| && |k2| >= 2
    ensures QuotedField(JsonPair(k1, a, k2, b), k1) == a
    ensures QuotedField(JsonPair(k1, a, k2, b), k2) == b
  {
    var body := JsonPair(k1, a, k2, b);
    QuoteFreePrefix("{", k1);
    assert body == "{" + FieldOpener(k1) + a + "\"" + ("," + FieldOpener(k2) + b + "\"}");
    QuotedFieldRoundTrip("{", k1, a, "," + FieldOpener(k2) + b + "\"}");
    var p := "{" + FieldOpener(k1) + a + "\",";
    SecondOpenerFirst(k1, a, k2);
    assert body == p + FieldOpener(k2) + b + "\"" + "}";
    QuotedFieldRoundTrip(p, k2, b, "}");
  }

  /** What `handleSaveWiFi` does with a body: store and reconnect, or answer
      400. The reconnection itself is not modelled. */
  datatype SaveOutcome = Saved(ssid: seq<char>, password: seq<char>) | Rejected

  /** `handleSaveWiFi`; `SaveWiFiRoundTrip` states what it does with the
      settings page's body. */
  function HandleSaveWiFi(body: seq<char>): SaveOutcome {
    var ssidValue := QuotedField(body, "ssid");
    var passValue := QuotedField(body, "password");
    if |ssidValue| > 0 then Saved(ssidValue, passValue) else Rejected
  }

  /** The command and the value `handleControl` reads from its body;
      `ControlRoundTrip` and `CommandOnlyRoundTrip` state what it reads from
      the control page's bodies. */
  function ControlRequest(body: seq<char>): (seq<char>, seq<char>) {
    (QuotedField(body, "command"), QuotedField(body, "value"))
  }

  /** The body the settings page posts, `{"ssid":"s","password":"p"}`, is
      saved as exactly (s, p) when the network name is non-empty, and
      refused otherwise. */
  lemma SaveWiFiRoundTrip(ssid: seq<char>, password: seq<char>)
    requires '"' !in ssid && '"' !in password
    ensures HandleSaveWiFi(JsonPair("ssid", ssid, "password", password))
            == if ssid == "" then Rejected else Saved(ssid, password)
  {
    JsonPairFields("ssid", ssid, "password", password);
  }

  /** The body the control page posts with a value,
      `{"command":"c","value":"v"}`, yields exactly c and v. */
  lemma ControlRoundTrip(command: seq<char>, value: seq<char>)
    requires '"' !in command && '"' !in value
    ensures ControlRequest(JsonPair("command", command, "value", value)) == (command, value)
  {
    JsonPairFields("command", command, "value", value);
  }

  /** The body the control page posts without a value, `{"command":"c"}`,
      yields c and an empty value. */
  lemma CommandOnlyRoundTrip(command: seq<char>)
    requires '"' !in command
    ensures ControlRequest(JsonSingle("command", command)) == (command, "")
  {
    var body := JsonSingle("command", command);
    assert QuotedField(body, "command") == command by {
      QuoteFreePrefix("{", "command");
      assert body == "{" + FieldOpener("command") + command + "\"" + "}";
      QuotedFieldRoundTrip("{", "command", command, "}");
    }
    assert QuotedField(body, "value") == "" by {
      NoOtherOpenerInSingle("command", command, "value");
      QuotedFieldMissing(body, "value");
    }
  }

  // ------------------------------------------------------- serial buffer

  const MaxSerialBuffer: nat := 1000

  /** The line `addToSerialBuffer` appends: the time in brackets, the message
      and a newline. */
  function TimestampedMessage(now: nat, message: seq<char>): seq<char> {
    "[" + NatToDecimal(now) + "] " + message + "\n"
  }

  /** `addToSerialBuffer` at time `now`: append the line, then keep only the
      last 1000 characters. */
  function AddToSerialBuffer(buffer: seq<char>, now: nat, message: seq<char>): (r: seq<char>)
    ensures var full := buffer + TimestampedMessage(now, message);
            && |r| == (if |full| > MaxSerialBuffer then MaxSerialBuffer else |full|)
            && r == full[|full| - |r|..]
    ensures |r| <= MaxSerialBuffer
    ensures |TimestampedMessage(now, message)| <= MaxSerialBuffer ==>
              r[|r| - |TimestampedMessage(now, message)|..] == TimestampedMessage(now, message)
  {
    var full := buffer + TimestampedMessage(now, message);
    if |full| > MaxSerialBuffer then
      var excess := |full| - MaxSerialBuffer;
      Substring(full, excess, |full|)
    else full
  }

  /** A buffer kept by `addToSerialBuffer` never exceeds 1000 characters,
      and one that has room is not trimmed: the line is simply appended. */
  lemma SerialBufferUntrimmedWhenRoom(buffer: seq<char>, now: nat, message: seq<char>)
    requires |buffer| + |TimestampedMessage(now, message)| <= MaxSerialBuffer
    ensures AddToSerialBuffer(buffer, now, message) == buffer + TimestampedMessage(now, message)
  {
  }

  // --------------------------------------------------------- request line

  /** The method of a request line: the text before the first space (the
      whole line when it has none). */
  function RequestMethod(request: seq<char>): (r: seq<char>)
    ensures |request| < UIntModulus ==>
              && r <= request && ' ' !in r
              && (|r| < |request| ==> request[|r|] == ' ')
  {
    var k := IndexOfChar(request, ' ', 0);
    if |request| < UIntModulus then
      PathRun(request, 0, k);
      Substring(request, 0, Unsigned(k))
    else
      Substring(request, 0, Unsigned(k))
  }

  /** The path of a request line: the text between the first and the second
      space (up to the end when there is no second space). */
  function RequestPath(request: seq<char>): (r: seq<char>)
    ensures |request| < UIntModulus ==>
              var k := IndexOfChar(request, ' ', 0);
              var from := if k == -1 then 0 else k + 1;
              && from + |r| <= |request| && request[from..from + |r|] == r && ' ' !in r
              && (from + |r| < |request| ==> request[from + |r|] == ' ')
  {
    var first := IndexOfChar(request, ' ', 0);
    var from := Unsigned(first + 1);
    var second := IndexOfChar(request, ' ', from);
    if |request| < UIntModulus then
      PathRun(request, from, second);
      Substring(request, from, Unsigned(second))
    else
      Substring(request, from, Unsigned(second))
  }

  /** The text from `from` up to the next space (or the end) has no space. */
  lemma PathRun(request: seq<char>, from: nat, second: int)
    requires |request| < UIntModulus && from <= |request|
    requires second == IndexOfChar(request, ' ', from)
    ensures var r := Substring(request, from, Unsigned(second));
            && from + |r| <= |request| && request[from..from + |r|] == r && ' ' !in r
            && (from + |r| < |request| ==> request[from + |r|] == ' ')
  {
    var r := Substring(request, from, Unsigned(second));
    if second == -1 {
      assert r == request[from..];
    } else {
      assert r == request[from..second];
    }
    assert forall i :: 0 <= i < |r| ==> r[i] == request[from + i];
  }

  /** A space-free run ended by a space is what the firmware cuts out
      when it searches for that space from the start of the run. */
  lemma SpaceDelimited(s: seq<char>, from: nat, run: seq<char>)
    requires from + |run| < |s| < UIntModulus
    requires s[from..from + |run|] == run && ' ' !in run && s[from + |run|] == ' '
    ensures Substring(s, from, Unsigned(IndexOfChar(s, ' ', from))) == run
  {
    IndexOfCharAfterRun(s, ' ', from, run);
  }

  /** A request line `method path rest` with no space in the method or the
      path splits back into its method and path. */
  lemma RequestLineSplit(method_: seq<char>, path: seq<char>, rest: seq<char>)
    requires ' ' !in method_ && ' ' !in path
    requires |method_ + " " + path + " " + rest| < UIntModulus - 1
    ensures RequestMethod(method_ + " " + path + " " + rest) == method_
    ensures RequestPath(method_ + " " + path + " " + rest) == path
  {
    var req := method_ + " " + path + " " + rest;
    var m := |method_|;
    assert req[0..m] == method_ && req[m] == ' ' by {
      assert req == method_ + (" " + path + " " + rest);
    }
    assert req[m + 1..m + 1 + |path|] == path && req[m + 1 + |path|] == ' ' by {
      assert req == (method_ + " ") + path + (" " + rest);
    }
    SplitAtSpaces(req, method_, path);
  }

  /** The split of a line whose method and path are space-free runs, each
      ended by a space. */
  lemma SplitAtSpaces(req: seq<char>, method_: seq<char>, path: seq<char>)
    requires |req| < UIntModulus - 1
    requires var m := |method_|;
             && m + 1 + |path| < |req|
             && req[0..m] == method_ && req[m] == ' ' && ' ' !in method_
             && req[m + 1..m + 1 + |path|] == path && req[m + 1 + |path|] == ' ' && ' ' !in path
    ensures RequestMethod(req) == method_ && RequestPath(req) == path
  {
    var r := RequestMethod(req);
    assert req[0..|r|] == r;
    SpaceFreeRunUnique(req, 0, r, method_);
    IndexOfCharAfterRun(req, ' ', 0, method_);
    SpaceFreeRunUnique(req, |method_| + 1, RequestPath(req), path);
  }

  /** Two space-free runs that start at the same place and each end at a
      space or at the end of the text are the same run. */
  lemma SpaceFreeRunUnique(s: seq<char>, from: nat, a: seq<char>, b: seq<char>)
    requires from + |a| <= |s| && s[from..from + |a|] == a && ' ' !in a
    requires from + |a| < |s| ==> s[from + |a|] == ' '
    requires from + |b| <= |s| && s[from..from + |b|] == b && ' ' !in b
    requires from + |b| < |s| ==> s[from + |b|] == ' '
    ensures a == b
  {
  }

  /** A line without any space is its own method and its own path: the
      missing space makes `indexOf` return -1, which as an unsigned bound
      reaches past the end. */
  lemma LoneWordRequest(word: seq<char>)
    requires ' ' !in word && |word| < UIntModulus - 1
    ensures RequestMethod(word) == word && RequestPath(word) == word
  {
    assert IndexOfChar(word, ' ', 0) == -1;
  }

  /** What `handleWebServer` does with a request line. */
  datatype Route =
    | SkipSse            // "/events" or "/clear-console" anywhere in the line
    | ServeIndex
    | ServeScript
    | ServeStatus
    | SaveWiFi
    | ScanNetworks
    | Control
    | NotFound
    | NoResponse         // a method other than GET and POST: closed unanswered

  /** The routing table: which method and path lead to each handler. GET
      serves the page, the script and the status, POST the three forms,
      any other method gets no answer, and whatever is left is a 404. */
  predicate RoutedBy(r: Route, method_: seq<char>, path: seq<char>) {
    && (r == ServeIndex <==> method_ == "GET" && (path == "/" || path == "/index.html"))
    && (r == ServeScript <==> method_ == "GET" && path == "/script.js")
    && (r == ServeStatus <==> method_ == "GET" && path == "/status")
    && (r == SaveWiFi <==> method_ == "POST" && path == "/save-wifi")
    && (r == ScanNetworks <==> method_ == "POST" && path == "/scan-networks")
    && (r == Control <==> method_ == "POST" && path == "/control")
    && (r == NoResponse <==> method_ != "GET" && method_ != "POST")
    && r != SkipSse
  }

  function RouteRequest(request: seq<char>): (r: Route)
    ensures r == SkipSse <==> IndexOfStr(request, "/events", 0) >= 0 || IndexOfStr(request, "/clear-console", 0) >= 0
    ensures r != SkipSse ==> RoutedBy(r, RequestMethod(request), RequestPath(request))
  {
    if IndexOfStr(request, "/events", 0) >= 0 || IndexOfStr(request, "/clear-console", 0) >= 0 then SkipSse
    else
      var method_ := RequestMethod(request);
      var path := RequestPath(request);
      if method_ == "GET" then
        if path == "/" || path == "/index.html" then ServeIndex
        else if path == "/script.js" then ServeScript
        else if path == "/status" then ServeStatus
        else NotFound
      else if method_ == "POST" then
        if path == "/save-wifi" then SaveWiFi
        else if path == "/scan-networks" then ScanNetworks
        else if path == "/control" then Control
        else NotFound
      else NoResponse
  }

  /** A request line `method path rest` that names neither event stream is
      routed by its method and path through the table. */
  lemma RouteOfRequestLine(method_: seq<char>, path: seq<char>, rest: seq<char>)
    requires ' ' !in method_ && ' ' !in path
    requires |method_ + " " + path + " " + rest| < UIntModulus - 1
    requires IndexOfStr(method_ + " " + path + " " + rest, "/events", 0) < 0
    requires IndexOfStr(method_ + " " + path + " " + rest, "/clear-console", 0) < 0
    ensures RoutedBy(RouteRequest(method_ + " " + path + " " + rest), method_, path)
  {
    RequestLineSplit(method_, path, rest);
  }
}
