/** Inline policy signatures (`policy_versioned/signing.py`): printing the block, parsing it, stripping it,
    and exactly when a signed policy verifies. HMAC is a function of key and text. */
module PolicySigning {
  import opened Collections
  import opened PolicyLines

  const MARKER: string := "# --- PICODOME SIGNATURE ---"
  const ALGORITHM: string := "hmac-sha256"

  type Key = string
  type Mac = (Key, string) -> string

  datatype Signature = Signature(algorithm: string, signature: string, timestamp: string, keyId: string)

  datatype VerifyError = NoError | NoSignature | Unsupported | KeyIdMismatch | SignatureMismatch

  /** The fields that were not read are empty. */
  datatype VerifyResult =
    VerifyResult(valid: bool, error: VerifyError, algorithm: string, keyId: string, timestamp: string)

  // ---- signing ----

  /** A line of the block: `# name: value`. */
  function FieldLine(name: string, value: string): string { "# " + name + " " + value }

  /** The lines of the appended block. The last one is empty: the block ends in a newline. */
  function BlockLines(algorithm: string, sig: string, timestamp: string, keyId: string): seq<string> {
    [MARKER, FieldLine("algorithm:", algorithm), FieldLine("signature:", sig), FieldLine("timestamp:", timestamp),
     FieldLine("key_id:", keyId), ""]
  }

  function Sign(content: string, mac: Mac, key: Key, keyId: string, timestamp: string): string {
    var b := BlockLines(ALGORITHM, mac(key, content), timestamp, keyId);
    content + "\n" + (b[0] + "\n" + (b[1] + "\n" + (b[2] + "\n" + (b[3] + "\n" + (b[4] + "\n" + b[5])))))
  }

  /** Whatever is printed, it comes after the lines of the policy. */
  lemma SignedSplits(content: string, mac: Mac, key: Key, keyId: string, timestamp: string)
    ensures Split(Sign(content, mac, key, keyId, timestamp))
         == Split(content) + Split(Join(BlockLines(ALGORITHM, mac(key, content), timestamp, keyId)))
  {
    hide Join, Split;
    var b := BlockLines(ALGORITHM, mac(key, content), timestamp, keyId);
    JoinSix(b);
    SplitAt(content, Join(b));
  }

  // ---- stripping ----

  predicate IsMarker(line: string) { Strip(line) == MARKER }

  /** Index of the first marker line, or the number of lines. */
  function MarkerIndex(lines: seq<string>): (i: nat)
    ensures i <= |lines|
    ensures i < |lines| ==> IsMarker(lines[i])
    ensures forall k | 0 <= k < i :: !IsMarker(lines[k])
  {
    if lines == [] || IsMarker(lines[0]) then 0 else 1 + MarkerIndex(lines[1..])
  }

  predicate HasMarker(content: string) { MarkerIndex(Split(content)) < |Split(content)| }

  predicate IsBlank(line: string) { Strip(line) == "" }

  function DropBlankTail(lines: seq<string>): seq<string> {
    if lines != [] && IsBlank(lines[|lines| - 1]) then DropBlankTail(lines[..|lines| - 1]) else lines
  }

  function StripSignature(content: string): string {
    var lines := Split(content);
    var i := MarkerIndex(lines);
    if i == |lines| then content else Join(DropBlankTail(lines[..i])) + "\n"
  }

  // ---- parsing ----

  predicate StartsWith(s: string, p: string) { |p| <= |s| && s[..|p|] == p }

  /** The field text of a block line: the line without blanks, hashes and the blanks after them. */
  function FieldText(line: string): string { Strip(StripHashes(Strip(line))) }

  /** One block line: the part after the colon goes to the field that the line names. */
  function ParseLine(line: string, sig: Signature): Signature {
    var t := FieldText(line);
    if StartsWith(t, "algorithm:") then sig.(algorithm := Strip(t[10..]))
    else if StartsWith(t, "signature:") then sig.(signature := Strip(t[10..]))
    else if StartsWith(t, "timestamp:") then sig.(timestamp := Strip(t[10..]))
    else if StartsWith(t, "key_id:") then sig.(keyId := Strip(t[7..]))
    else sig
  }

  predicate EndsBlock(line: string) { Strip(line) == "" || Strip(line)[0] != '#' }

  function ParseLines(lines: seq<string>, sig: Signature): Signature
    decreases |lines|
  {
    if lines == [] || EndsBlock(lines[0]) then sig else ParseLines(lines[1..], ParseLine(lines[0], sig))
  }

  const UNSET: Signature := Signature("", "", "", "default")

  function ParseSignature(content: string): Option<Signature> {
    var lines := Split(content);
    var i := MarkerIndex(lines);
    if i == |lines| then None
    else
      var sig := ParseLines(lines[i + 1..], UNSET);
      if sig.algorithm == "" || sig.signature == "" then None else Some(sig)
  }

  // ---- verifying ----

  function Verify(content: string, mac: Mac, key: Key, keyId: string): VerifyResult {
    match ParseSignature(content)
    case None => VerifyResult(false, NoSignature, "", "", "")
    case Some(parsed) =>
      if parsed.algorithm != ALGORITHM then VerifyResult(false, Unsupported, parsed.algorithm, "", "")
      else if parsed.keyId != keyId then VerifyResult(false, KeyIdMismatch, parsed.algorithm, parsed.keyId, "")
      else if mac(key, StripSignature(content)) == parsed.signature
      then VerifyResult(true, NoError, parsed.algorithm, parsed.keyId, parsed.timestamp)
      else VerifyResult(false, SignatureMismatch, parsed.algorithm, parsed.keyId, "")
  }

  // ---- what a signed policy looks like ----

  /** One line, with no blanks around it. It may be empty. */
  predicate Plain(s: string) { OneLine(s) && (s == "" || Tight(s)) }

  /** MACs are hex digests: not empty, one line, no blanks around them. */
  ghost predicate HexLike(mac: Mac) {
    forall k, s :: mac(k, s) != "" && Plain(mac(k, s))
  }

  lemma BlockIsLines(algorithm: string, sig: string, timestamp: string, keyId: string)
    requires OneLine(algorithm) && OneLine(sig) && OneLine(timestamp) && OneLine(keyId)
    ensures AllOneLine(BlockLines(algorithm, sig, timestamp, keyId))
  {
  }

  lemma JoinSix(b: seq<string>)
    requires |b| == 6
    ensures Join(b) == b[0] + "\n" + (b[1] + "\n" + (b[2] + "\n" + (b[3] + "\n" + (b[4] + "\n" + b[5]))))
  {
    JoinFrom(b, 0);
    JoinFrom(b, 1);
    JoinFrom(b, 2);
    JoinFrom(b, 3);
    JoinFrom(b, 4);
    hide Join;
    JoinLast(b);
    assert b[0..] == b;
  }

  lemma JoinFrom(b: seq<string>, i: nat)
    requires i + 1 < |b|
    ensures Join(b[i..]) == b[i] + "\n" + Join(b[i + 1..])
  {
    assert b[i..][1..] == b[i + 1..];
  }

  lemma JoinLast(b: seq<string>)
    requires b != []
    ensures Join(b[|b| - 1..]) == b[|b| - 1]
  {
  }

  /** The lines of a signed policy: those of the policy, then the block. */
  lemma SignedLines(content: string, mac: Mac, key: Key, keyId: string, timestamp: string)
    requires HexLike(mac) && Plain(keyId) && Plain(timestamp)
    ensures Split(Sign(content, mac, key, keyId, timestamp))
         == Split(content) + BlockLines(ALGORITHM, mac(key, content), timestamp, keyId)
  {
    var sig := mac(key, content);
    var b := BlockLines(ALGORITHM, sig, timestamp, keyId);
    assert Plain(sig);
    PlainAlgorithm();
    BlockIsLines(ALGORITHM, sig, timestamp, keyId);
    hide Join, Split, Plain;
    JoinSix(b);
    SplitJoin(b);
    SplitAt(content, Join(b));
  }

  // ---- stripping ----

  lemma {:induction false} MarkerAfter(lines: seq<string>, rest: seq<string>)
    requires (forall l | l in lines :: !IsMarker(l)) && rest != [] && IsMarker(rest[0])
    ensures MarkerIndex(lines + rest) == |lines|
    decreases |lines|
  {
    if lines == [] {
      assert lines + rest == rest;
    } else {
      assert (lines + rest)[0] == lines[0] && lines[0] in lines && (lines + rest)[1..] == lines[1..] + rest;
      MarkerAfter(lines[1..], rest);
    }
  }

  lemma NoMarkerLines(content: string)
    requires !HasMarker(content)
    ensures forall l | l in Split(content) :: !IsMarker(l)
  {
  }

  lemma {:induction false} NoMarkerAmong(lines: seq<string>)
    requires forall l | l in lines :: !IsMarker(l)
    ensures MarkerIndex(lines) == |lines|
    decreases |lines|
  {
    if lines != [] {
      assert lines[0] in lines;
      NoMarkerAmong(lines[1..]);
    }
  }

  lemma MarkerIsMarker()
    ensures IsMarker(MARKER)
  {
    StripTight(MARKER);
  }

  lemma {:induction false} DropBlankTailIs(lines: seq<string>)
    ensures |DropBlankTail(lines)| <= |lines| && DropBlankTail(lines) == lines[..|DropBlankTail(lines)|]
    ensures DropBlankTail(lines) != [] ==> !IsBlank(DropBlankTail(lines)[|DropBlankTail(lines)| - 1])
    ensures forall k | |DropBlankTail(lines)| <= k < |lines| :: IsBlank(lines[k])
    decreases |lines|
  {
    if lines != [] && IsBlank(lines[|lines| - 1]) {
      DropBlankTailIs(lines[..|lines| - 1]);
    }
  }

  /** Ends in exactly one newline after a line that is not blank; or is nothing but a newline. */
  predicate EndsProperly(content: string) {
    var lines := Split(content);
    content == "\n" || (|lines| >= 2 && lines[|lines| - 1] == "" && !IsBlank(lines[|lines| - 2]))
  }

  /** What stripping makes of the lines above the marker: they, without trailing blank lines, and a newline. */
  lemma RebuiltIff(content: string)
    ensures Join(DropBlankTail(Split(content))) + "\n" == content <==> EndsProperly(content)
  {
    var lines := Split(content);
    var kept := DropBlankTail(lines);
    var rebuilt := Join(kept) + "\n";
    SplitLines(content);
    DropBlankTailIs(lines);
    assert AllOneLine(kept) by {
      forall l | l in kept ensures OneLine(l) { assert l in lines; }
    }
    SplitJoinNewline(kept);
    JoinSplit(content);
    JoinSplit(rebuilt);
    assert rebuilt == content <==> Split(rebuilt) == lines;
    RebuiltLinesIff(content, lines, kept);
  }

  lemma NewlineIsTwoBlanks(content: string)
    ensures content == "\n" <==> Split(content) == ["", ""]
    ensures DropBlankTail(["", ""]) == []
  {
    assert Split("\n") == ["", ""];
    assert Join(["", ""]) == "\n" by { assert ["", ""][1..] == [""]; }
    JoinSplit(content);
    assert IsBlank("") && ["", ""][..1] == [""];
  }

  lemma RebuiltLinesIff(content: string, lines: seq<string>, kept: seq<string>)
    requires lines == Split(content) && kept == DropBlankTail(lines)
    ensures (if kept == [] then [""] else kept) + [""] == lines <==> EndsProperly(content)
  {
    DropBlankTailIs(lines);
    NewlineIsTwoBlanks(content);
    assert IsBlank("");
    hide Split, IsBlank, DropBlankTail;
    if kept != [] {
      if kept + [""] == lines { assert lines[|lines| - 2] == kept[|kept| - 1]; }
    }
  }

  /** Stripping a signed policy gives back the policy exactly when the policy ends properly and held no block before. */
  lemma StripSignedIff(content: string, mac: Mac, key: Key, keyId: string, timestamp: string)
    requires HexLike(mac) && Plain(keyId) && Plain(timestamp)
    ensures StripSignature(Sign(content, mac, key, keyId, timestamp)) == content
       <==> EndsProperly(content) && !HasMarker(content)
  {
    hide Sign, HexLike, Plain, StripSignature, EndsProperly, HasMarker, Split, Join, DropBlankTail;
    if HasMarker(content) {
      StripMarked(content, mac, key, keyId, timestamp);
      StrippedIsClean(content);
    } else {
      StripSigned(content, mac, key, keyId, timestamp);
      RebuiltIff(content);
    }
  }

  lemma {:induction false} MarkerBefore(lines: seq<string>, rest: seq<string>)
    requires MarkerIndex(lines) < |lines|
    ensures MarkerIndex(lines + rest) == MarkerIndex(lines)
    decreases |lines|
  {
    hide IsMarker;
    assert (lines + rest)[0] == lines[0] && (lines + rest)[1..] == lines[1..] + rest;
    if !IsMarker(lines[0]) { MarkerBefore(lines[1..], rest); }
  }

  /** A block that is already there hides the one that is printed after it. */
  lemma StripMarked(content: string, mac: Mac, key: Key, keyId: string, timestamp: string)
    requires HasMarker(content)
    ensures HasMarker(Sign(content, mac, key, keyId, timestamp))
    ensures StripSignature(Sign(content, mac, key, keyId, timestamp)) == StripSignature(content)
  {
    hide Sign, Split, MarkerIndex, Join, DropBlankTail;
    var lines, i := Split(content), MarkerIndex(Split(content));
    SignedSplits(content, mac, key, keyId, timestamp);
    var rest := Split(Join(BlockLines(ALGORITHM, mac(key, content), timestamp, keyId)));
    MarkerBefore(lines, rest);
    assert (lines + rest)[..i] == lines[..i];
  }

  lemma StripSigned(content: string, mac: Mac, key: Key, keyId: string, timestamp: string)
    requires HexLike(mac) && Plain(keyId) && Plain(timestamp) && !HasMarker(content)
    ensures HasMarker(Sign(content, mac, key, keyId, timestamp))
    ensures StripSignature(Sign(content, mac, key, keyId, timestamp)) == Join(DropBlankTail(Split(content))) + "\n"
  {
    var lines, block := Split(content), BlockLines(ALGORITHM, mac(key, content), timestamp, keyId);
    SignedLines(content, mac, key, keyId, timestamp);
    NoMarkerLines(content);
    MarkerIsMarker();
    MarkerAfter(lines, block);
    assert (lines + block)[..|lines|] == lines;
  }

  /** Stripping never leaves a marker behind, and what it rebuilds ends properly. */
  lemma StrippedIsClean(content: string)
    ensures !HasMarker(StripSignature(content))
    ensures HasMarker(content) ==> EndsProperly(StripSignature(content))
  {
    var lines := Split(content);
    var i := MarkerIndex(lines);
    if i < |lines| {
      var kept := DropBlankTail(lines[..i]);
      SplitLines(content);
      DropBlankTailIs(lines[..i]);
      assert AllOneLine(kept) && forall l | l in kept :: !IsMarker(l) by {
        forall l | l in kept ensures OneLine(l) && !IsMarker(l) {
          var k :| 0 <= k < |kept| && kept[k] == l;
          assert lines[k] == l && lines[k] in lines;
        }
      }
      CleanText(kept);
    }
  }

  lemma BlankIsNoMarker()
    ensures !IsMarker("") && IsBlank("")
  {
  }

  lemma CleanText(kept: seq<string>)
    requires AllOneLine(kept) && (forall l | l in kept :: !IsMarker(l))
    requires kept != [] ==> !IsBlank(kept[|kept| - 1])
    ensures !HasMarker(Join(kept) + "\n") && EndsProperly(Join(kept) + "\n")
  {
    hide IsMarker, IsBlank, Strip, Split, MarkerIndex, OneLine, Join, AllOneLine;
    BlankIsNoMarker();
    var text := Join(kept) + "\n";
    var lines := (if kept == [] then [""] else kept) + [""];
    SplitJoinNewline(kept);
    forall l | l in lines ensures !IsMarker(l) { assert l in kept || l == ""; }
    NoMarkerAmong(lines);
    NewlineIsTwoBlanks(text);
    if kept != [] { assert lines[|lines| - 2] == kept[|kept| - 1]; }
  }

  /** Stripping is idempotent. */
  lemma StripIdempotent(content: string)
    ensures StripSignature(StripSignature(content)) == StripSignature(content)
  {
    StrippedIsClean(content);
  }

  // ---- parsing ----

  /** A printed field line, for a field name that starts with a letter and ends in a colon. */
  lemma FieldRoundTrip(name: string, value: string)
    requires Tight(name) && name[0] != '#' && Plain(value)
    ensures var t := FieldText(FieldLine(name, value));
            |name| <= |t| && t[..|name|] == name && Strip(t[|name|..]) == value
    ensures !EndsBlock(FieldLine(name, value))
  {
    var line := FieldLine(name, value);
    if value == "" {
      var bare := "# " + name;
      assert line == bare + " ";
      StripOneAfter(bare);
      HashesGo(name);
      StripTight(name);
      assert name[|name|..] == "";
    } else {
      var body := name + " " + value;
      assert line == "# " + body;
      StripTight(line);
      HashesGo(body);
      StripTight(body);
      assert body[|name|..] == " " + value;
      StripOneBefore(value);
    }
  }

  lemma HashesGo(body: string)
    requires body != "" && body[0] != '#' && body[0] != ' '
    ensures StripHashes("# " + body) == body
  {
    var s := "# " + body;
    assert s[1..] == " " + body && s[1..][1..] == body;
    assert StripHashes(s[1..]) == StripHashes(body) == body;
  }

  lemma ParseAlgorithm(value: string, was: Signature)
    requires Plain(value)
    ensures ParseLine(FieldLine("algorithm:", value), was) == was.(algorithm := value)
    ensures !EndsBlock(FieldLine("algorithm:", value))
  {
    hide FieldText, EndsBlock, Strip, Plain, FieldLine;
    FieldRoundTrip("algorithm:", value);
  }

  lemma ParseSignatureLine(value: string, was: Signature)
    requires Plain(value)
    ensures ParseLine(FieldLine("signature:", value), was) == was.(signature := value)
    ensures !EndsBlock(FieldLine("signature:", value))
  {
    hide FieldText, EndsBlock, Strip, Plain, FieldLine;
    FieldRoundTrip("signature:", value);
  }

  lemma ParseTimestamp(value: string, was: Signature)
    requires Plain(value)
    ensures ParseLine(FieldLine("timestamp:", value), was) == was.(timestamp := value)
    ensures !EndsBlock(FieldLine("timestamp:", value))
  {
    hide FieldText, EndsBlock, Strip, Plain, FieldLine;
    FieldRoundTrip("timestamp:", value);
  }

  lemma ParseKeyId(value: string, was: Signature)
    requires Plain(value)
    ensures ParseLine(FieldLine("key_id:", value), was) == was.(keyId := value)
    ensures !EndsBlock(FieldLine("key_id:", value))
  {
    hide FieldText, EndsBlock, Strip, Plain, FieldLine;
    FieldRoundTrip("key_id:", value);
  }

  lemma MacIsPlain(mac: Mac, key: Key, content: string)
    requires HexLike(mac)
    ensures mac(key, content) != "" && Plain(mac(key, content))
  {
  }

  lemma BlockStarts(algorithm: string, sig: string, timestamp: string, keyId: string)
    ensures var b := BlockLines(algorithm, sig, timestamp, keyId); |b| == 6 && b[0] == MARKER
  {
  }

  /** The block that is already there ends before the file does. */
  ghost predicate Closed(content: string) {
    var lines := Split(content);
    exists k | MarkerIndex(lines) < k < |lines| :: EndsBlock(lines[k])
  }

  /** What a signed policy parses as: the printed fields, unless it held a block before. Then the old block decides,
      or, when the file ended inside it, its lines and the printed ones are read as one block, where the last field
      counts. */
  lemma ParseSigned(content: string, mac: Mac, key: Key, keyId: string, timestamp: string)
    requires HexLike(mac) && Plain(keyId) && Plain(timestamp)
    ensures ParseSignature(Sign(content, mac, key, keyId, timestamp))
         == if HasMarker(content) && Closed(content) then ParseSignature(content)
            else Some(Signature(ALGORITHM, mac(key, content), timestamp, keyId))
  {
    hide Sign, HexLike, Plain, ParseSignature, Closed, HasMarker;
    if HasMarker(content) {
      ParseMarked(content, mac, key, keyId, timestamp);
    } else {
      ParseUnmarked(content, mac, key, keyId, timestamp);
    }
  }

  lemma ParseUnmarked(content: string, mac: Mac, key: Key, keyId: string, timestamp: string)
    requires HexLike(mac) && Plain(keyId) && Plain(timestamp) && !HasMarker(content)
    ensures ParseSignature(Sign(content, mac, key, keyId, timestamp))
         == Some(Signature(ALGORITHM, mac(key, content), timestamp, keyId))
  {
    hide Split, HexLike, Plain, Sign, ParseLines, IsMarker, BlockLines, FieldLine, HasMarker;
    MacIsPlain(mac, key, content);
    var lines, sig := Split(content), mac(key, content);
    var block := BlockLines(ALGORITHM, sig, timestamp, keyId);
    SignedLines(content, mac, key, keyId, timestamp);
    NoMarkerLines(content);
    MarkerIsMarker();
    BlockStarts(ALGORITHM, sig, timestamp, keyId);
    MarkerAfter(lines, block);
    assert (lines + block)[|lines| + 1..] == block[1..];
    PlainAlgorithm();
    ParseBlock(ALGORITHM, sig, timestamp, keyId, UNSET);
  }

  lemma ParseMarked(content: string, mac: Mac, key: Key, keyId: string, timestamp: string)
    requires HexLike(mac) && Plain(keyId) && Plain(timestamp) && HasMarker(content)
    ensures ParseSignature(Sign(content, mac, key, keyId, timestamp))
         == if Closed(content) then ParseSignature(content)
            else Some(Signature(ALGORITHM, mac(key, content), timestamp, keyId))
  {
    hide Split, HexLike, Plain, Sign, ParseLines, IsMarker, BlockLines, FieldLine, MarkerIndex, EndsBlock, ParseLine;
    MacIsPlain(mac, key, content);
    var lines, block := Split(content), BlockLines(ALGORITHM, mac(key, content), timestamp, keyId);
    var i := MarkerIndex(lines);
    SignedLines(content, mac, key, keyId, timestamp);
    MarkerBefore(lines, block);
    var rest := lines[i + 1..];
    assert (lines + block)[i + 1..] == rest + block;
    if Closed(content) {
      var k :| i < k < |lines| && EndsBlock(lines[k]);
      ParseEnds(rest, k - i - 1, block, UNSET);
    } else {
      forall k | 0 <= k < |rest| ensures !EndsBlock(rest[k]) { assert rest[k] == lines[i + 1 + k]; }
      ParseRunsOn(rest, block, UNSET);
      var was := ParseLines(rest, UNSET);
      BlockStarts(ALGORITHM, mac(key, content), timestamp, keyId);
      ParseMarkerLine(was);
      ParseTurn(block, 0, was);
      assert block[0..] == block;
      PlainAlgorithm();
      ParseBlock(ALGORITHM, mac(key, content), timestamp, keyId, was);
    }
  }

  lemma {:induction false} ParseEnds(lines: seq<string>, k: nat, more: seq<string>, sig: Signature)
    requires k < |lines| && EndsBlock(lines[k])
    ensures ParseLines(lines + more, sig) == ParseLines(lines, sig)
    decreases k
  {
    hide EndsBlock, ParseLine;
    assert (lines + more)[0] == lines[0] && (lines + more)[1..] == lines[1..] + more;
    if !EndsBlock(lines[0]) {
      assert lines[1..][k - 1] == lines[k];
      ParseEnds(lines[1..], k - 1, more, ParseLine(lines[0], sig));
    }
  }

  lemma {:induction false} ParseRunsOn(lines: seq<string>, more: seq<string>, sig: Signature)
    requires forall k | 0 <= k < |lines| :: !EndsBlock(lines[k])
    ensures ParseLines(lines + more, sig) == ParseLines(more, ParseLines(lines, sig))
    decreases |lines|
  {
    hide EndsBlock, ParseLine;
    if lines == [] {
      assert lines + more == more;
    } else {
      assert (lines + more)[0] == lines[0] && (lines + more)[1..] == lines[1..] + more;
      forall k | 0 <= k < |lines| - 1 ensures !EndsBlock(lines[1..][k]) { assert lines[1..][k] == lines[k + 1]; }
      ParseRunsOn(lines[1..], more, ParseLine(lines[0], sig));
    }
  }

  lemma MarkerIsTight()
    ensures Strip(MARKER) == MARKER && MARKER[0] == '#'
  {
    hide Strip;
    StripTight(MARKER);
  }

  lemma MarkerText()
    ensures var t := FieldText(MARKER); t != "" && t[0] == '-'
  {
    hide Strip, StripHashes, Tight, IsSpace;
    var body := "--- PICODOME SIGNATURE ---";
    MarkerIsTight();
    assert MARKER == "# " + body;
    HashesGo(body);
    assert Tight(body) by { DashIsTight(body); }
    StripTight(body);
  }

  lemma DashIsTight(s: string)
    requires s != "" && s[0] == '-' && s[|s| - 1] == '-'
    ensures Tight(s)
  {
  }

  /** Inside a block the marker is one more comment. */
  lemma ParseMarkerLine(was: Signature)
    ensures ParseLine(MARKER, was) == was && !EndsBlock(MARKER)
  {
    hide FieldText, Strip, StripHashes;
    MarkerIsTight();
    MarkerText();
    NoField(FieldText(MARKER));
  }

  /** A text that starts with a dash names no field. */
  lemma NoField(t: string)
    requires t != "" && t[0] == '-'
    ensures !StartsWith(t, "algorithm:") && !StartsWith(t, "signature:")
    ensures !StartsWith(t, "timestamp:") && !StartsWith(t, "key_id:")
  {
  }

  lemma ParseBlock(algorithm: string, sig: string, timestamp: string, keyId: string, was: Signature)
    requires Plain(algorithm) && Plain(sig) && Plain(timestamp) && Plain(keyId)
    ensures ParseLines(BlockLines(algorithm, sig, timestamp, keyId)[1..], was)
         == Signature(algorithm, sig, timestamp, keyId)
  {
    hide ParseLine, EndsBlock, FieldLine, OneLine, Tight;
    var b := BlockLines(algorithm, sig, timestamp, keyId)[1..];
    var s1 := was.(algorithm := algorithm);
    var s2 := s1.(signature := sig);
    var s3 := s2.(timestamp := timestamp);
    var s4 := s3.(keyId := keyId);
    ParseAlgorithm(algorithm, was);
    ParseSignatureLine(sig, s1);
    ParseTimestamp(timestamp, s2);
    ParseKeyId(keyId, s3);
    BlankEnds();
    ParseTurn(b, 3, s3);
    ParseTurn(b, 2, s2);
    ParseTurn(b, 1, s1);
    ParseTurn(b, 0, was);
    assert ParseLines(b[4..], s4) == s4;
    assert b[0..] == b;
  }

  lemma PlainAlgorithm()
    ensures Plain(ALGORITHM)
  {
    assert OneLine(ALGORITHM);
  }

  lemma ParseTurn(lines: seq<string>, i: nat, sig: Signature)
    requires i < |lines| && !EndsBlock(lines[i])
    ensures ParseLines(lines[i..], sig) == ParseLines(lines[i + 1..], ParseLine(lines[i], sig))
  {
    assert lines[i..][1..] == lines[i + 1..];
  }

  lemma BlankEnds()
    ensures EndsBlock("")
  {
  }

  // ---- verification ----

  lemma VerifySigned(content: string, mac: Mac, key: Key, keyId: string, timestamp: string)
    requires HexLike(mac) && Plain(keyId) && Plain(timestamp) && !(HasMarker(content) && Closed(content))
    ensures var signed := Sign(content, mac, key, keyId, timestamp);
            Verify(signed, mac, key, keyId).valid <==> mac(key, StripSignature(signed)) == mac(key, content)
  {
    hide Sign, StripSignature, HexLike, Plain, ParseSignature, Closed, HasMarker;
    ParseSigned(content, mac, key, keyId, timestamp);
  }

  lemma VerifyMarked(content: string, mac: Mac, key: Key, keyId: string, timestamp: string)
    requires HexLike(mac) && Plain(keyId) && Plain(timestamp) && HasMarker(content) && Closed(content)
    ensures Verify(Sign(content, mac, key, keyId, timestamp), mac, key, keyId) == Verify(content, mac, key, keyId)
  {
    hide Sign, StripSignature, HexLike, Plain, ParseSignature, Closed, HasMarker;
    ParseSigned(content, mac, key, keyId, timestamp);
    StripMarked(content, mac, key, keyId, timestamp);
  }

  lemma ParsedKeyIdIsPlain(line: string, was: Signature)
    requires OneLine(line) && Plain(was.keyId)
    ensures Plain(ParseLine(line, was).keyId)
  {
    var u := Strip(line);
    var v := StripHashes(u);
    var t := FieldText(line);
    StripIsTight(line);
    StripHashesIsSuffix(u);
    StripIsTight(v);
    if StartsWith(t, "key_id:") { StripIsTight(t[7..]); }
  }

  lemma {:induction false} ParsedLinesKeyIdIsPlain(lines: seq<string>, was: Signature)
    requires AllOneLine(lines) && Plain(was.keyId)
    ensures Plain(ParseLines(lines, was).keyId)
    decreases |lines|
  {
    hide ParseLine, EndsBlock, Plain, OneLine;
    if lines != [] && !EndsBlock(lines[0]) {
      assert lines[0] in lines;
      ParsedKeyIdIsPlain(lines[0], was);
      ParsedLinesKeyIdIsPlain(lines[1..], ParseLine(lines[0], was));
    }
  }

  /** Nothing ever verifies against a key id with blanks around it or a newline in it. */
  lemma VerifiedKeyIdIsPlain(content: string, mac: Mac, key: Key, keyId: string)
    requires Verify(content, mac, key, keyId).valid
    ensures Plain(keyId)
  {
    hide ParseSignature, StripSignature, Plain;
    ParsedIsPlain(content);
  }

  lemma ParsedIsPlain(content: string)
    requires ParseSignature(content).Some?
    ensures Plain(ParseSignature(content).value.keyId)
  {
    hide Split, Plain, ParseLines, MarkerIndex;
    var lines := Split(content);
    SplitLines(content);
    var i := MarkerIndex(lines);
    assert AllOneLine(lines[i + 1..]);
    UnsetIsPlain();
    ParsedLinesKeyIdIsPlain(lines[i + 1..], UNSET);
  }

  lemma UnsetIsPlain()
    ensures Plain(UNSET.keyId)
  {
    assert OneLine(UNSET.keyId);
  }

  // ---- what each check refuses ----

  /** The lines of a signed policy, as they are written. */
  lemma SignedText(content: string, mac: Mac, key: Key, keyId: string, timestamp: string)
    requires HexLike(mac) && Plain(keyId) && Plain(timestamp)
    ensures Split(Sign(content, mac, key, keyId, timestamp))
         == Split(content)
            + ["# --- PICODOME SIGNATURE ---", "# algorithm: hmac-sha256", "# signature: " + mac(key, content),
               "# timestamp: " + timestamp, "# key_id: " + keyId, ""]
  {
    hide Sign, Split, FieldLine, HexLike, Plain;
    SignedLines(content, mac, key, keyId, timestamp);
    FieldLineIs("algorithm:", "# algorithm: ", ALGORITHM);
    FieldLineIs("signature:", "# signature: ", mac(key, content));
    FieldLineIs("timestamp:", "# timestamp: ", timestamp);
    FieldLineIs("key_id:", "# key_id: ", keyId);
    AlgorithmLine();
  }

  lemma AlgorithmLine()
    ensures "# algorithm: " + ALGORITHM == "# algorithm: hmac-sha256"
  {
  }

  lemma FieldLineIs(name: string, start: string, value: string)
    requires start == "# " + name + " "
    ensures FieldLine(name, value) == start + value
  {
  }

  /** A text with a printed block below it, whatever the block says, parses as what was printed. */
  lemma BlockParses(content: string, algorithm: string, sig: string, timestamp: string, keyId: string)
    requires Plain(algorithm) && Plain(sig) && Plain(timestamp) && Plain(keyId) && algorithm != "" && sig != ""
    requires !HasMarker(content)
    ensures ParseSignature(content + "\n" + Join(BlockLines(algorithm, sig, timestamp, keyId)))
         == Some(Signature(algorithm, sig, timestamp, keyId))
  {
    var lines, block := Split(content), BlockLines(algorithm, sig, timestamp, keyId);
    BlockIsLines(algorithm, sig, timestamp, keyId);
    hide Split, Plain, ParseLines, IsMarker, BlockLines, FieldLine, HasMarker, Join, OneLine;
    BlockStarts(algorithm, sig, timestamp, keyId);
    SplitJoin(block);
    SplitAt(content, Join(block));
    NoMarkerLines(content);
    MarkerIsMarker();
    MarkerAfter(lines, block);
    assert (lines + block)[|lines| + 1..] == block[1..];
    ParseBlock(algorithm, sig, timestamp, keyId, UNSET);
  }

  /** A block that names no key id counts as signed under "default", and one without a signature as no block. */
  lemma ShortBlockParses(content: string, algorithm: string, sig: string)
    requires Plain(algorithm) && Plain(sig) && algorithm != "" && sig != "" && !HasMarker(content)
    ensures var first, second := FieldLine("algorithm:", algorithm), FieldLine("signature:", sig);
            && ParseSignature(content + "\n" + Join([MARKER, first, second, ""]))
               == Some(Signature(algorithm, sig, "", "default"))
            && ParseSignature(content + "\n" + Join([MARKER, first, ""])) == None
  {
    hide Plain, ParseSignature, HasMarker, FieldLine, Join, OneLine, ParseLines;
    var first, second := FieldLine("algorithm:", algorithm), FieldLine("signature:", sig);
    PlainFieldLine("algorithm:", algorithm);
    PlainFieldLine("signature:", sig);
    EmptyIsOneLine();
    assert [MARKER] + [first, second, ""] == [MARKER, first, second, ""];
    assert [MARKER] + [first, ""] == [MARKER, first, ""];
    ParsedBelow(content, [first, second, ""]);
    ParsedBelow(content, [first, ""]);
    var was := UNSET.(algorithm := algorithm);
    ParseAlgorithm(algorithm, UNSET);
    ParseSignatureLine(sig, was);
    TwoFields(first, second, algorithm, sig);
  }

  lemma TwoFields(first: string, second: string, algorithm: string, sig: string)
    requires var was := UNSET.(algorithm := algorithm);
             && !EndsBlock(first) && !EndsBlock(second)
             && ParseLine(first, UNSET) == was && ParseLine(second, was) == was.(signature := sig)
    ensures ParseLines([first, second, ""], UNSET) == Signature(algorithm, sig, "", "default")
    ensures ParseLines([first, ""], UNSET) == Signature(algorithm, "", "", "default")
  {
    hide EndsBlock, ParseLine;
    BlankEnds();
    var was := UNSET.(algorithm := algorithm);
    assert [first, second, ""][1..] == [second, ""] && [second, ""][1..] == [""] && [first, ""][1..] == [""];
    assert ParseLines([""], was) == was && ParseLines([""], was.(signature := sig)) == was.(signature := sig);
  }

  lemma PlainFieldLine(name: string, value: string)
    requires Plain(value) && name in ["algorithm:", "signature:"]
    ensures OneLine(FieldLine(name, value))
  {
  }

  /** Lines below a marker are what is parsed. */
  lemma ParsedBelow(content: string, fields: seq<string>)
    requires AllOneLine(fields) && fields != [] && !HasMarker(content)
    ensures ParseSignature(content + "\n" + Join([MARKER] + fields))
         == var p := ParseLines(fields, UNSET); if p.algorithm == "" || p.signature == "" then None else Some(p)
  {
    hide Split, ParseLines, IsMarker, HasMarker, Join;
    var lines, block := Split(content), [MARKER] + fields;
    MarkerIsOneLine();
    SplitJoin(block);
    SplitAt(content, Join(block));
    NoMarkerLines(content);
    MarkerIsMarker();
    MarkerAfter(lines, block);
    assert (lines + block)[|lines| + 1..] == fields;
  }

  lemma EmptyIsOneLine()
    ensures OneLine("")
  {
  }

  lemma MarkerIsOneLine()
    ensures OneLine(MARKER)
  {
  }

  /** A block of another algorithm never verifies, even if its signature is the right one. */
  lemma OtherAlgorithmFails(content: string, algorithm: string, sig: string, timestamp: string, keyId: string,
                            mac: Mac, key: Key, expected: string)
    requires Plain(algorithm) && Plain(sig) && Plain(timestamp) && Plain(keyId) && algorithm != "" && sig != ""
    requires !HasMarker(content) && algorithm != "hmac-sha256"
    ensures var r := Verify(content + "\n" + Join(BlockLines(algorithm, sig, timestamp, keyId)), mac, key, expected);
            !r.valid && r.error.Unsupported? && r.algorithm == algorithm
  {
    hide Plain, HasMarker, ParseSignature, Join, BlockLines, StripSignature;
    BlockParses(content, algorithm, sig, timestamp, keyId);
  }

  /** A policy signed under one key id does not verify under another, even with the same key. */
  lemma OtherKeyIdFails(content: string, mac: Mac, key: Key, keyId: string, timestamp: string, expected: string)
    requires HexLike(mac) && Plain(timestamp) && Plain(keyId) && !HasMarker(content) && keyId != expected
    ensures var r := Verify(Sign(content, mac, key, keyId, timestamp), mac, key, expected);
            !r.valid && r.error.KeyIdMismatch? && r.keyId == keyId
  {
    hide Plain, HexLike, HasMarker, ParseSignature, Sign, StripSignature;
    ParseSigned(content, mac, key, keyId, timestamp);
  }

  /** Under another key a signed policy verifies exactly when both keys give its text the same code. */
  lemma OtherKeyIff(content: string, mac: Mac, key: Key, other: Key, keyId: string, timestamp: string)
    requires HexLike(mac) && Plain(timestamp) && Plain(keyId) && EndsProperly(content) && !HasMarker(content)
    ensures Verify(Sign(content, mac, key, keyId, timestamp), mac, other, keyId).valid
       <==> mac(other, content) == mac(key, content)
  {
    hide Plain, HexLike, HasMarker, ParseSignature, Sign, StripSignature, EndsProperly;
    ParseSigned(content, mac, key, keyId, timestamp);
    StripSignedIff(content, mac, key, keyId, timestamp);
  }

  /** Exactly what a valid result vouches for, and what it reports. */
  lemma ValidIff(content: string, mac: Mac, key: Key, keyId: string)
    ensures var r, p := Verify(content, mac, key, keyId), ParseSignature(content);
            && (r.valid <==> p.Some? && p.value.algorithm == "hmac-sha256" && p.value.keyId == keyId
                             && p.value.signature == mac(key, StripSignature(content)))
            && (r.valid <==> r.error.NoError?)
            && (r.valid ==> r.algorithm == "hmac-sha256" && r.keyId == keyId && r.timestamp == p.value.timestamp)
            && (r.error.NoSignature? <==> p.None?)
            && (r.error.Unsupported? <==> p.Some? && p.value.algorithm != "hmac-sha256")
            && (r.error.KeyIdMismatch? <==> p.Some? && p.value.algorithm == "hmac-sha256" && p.value.keyId != keyId)
            && r.algorithm == (if p.None? then "" else p.value.algorithm)
            && r.keyId == (if p.None? || r.error.Unsupported? then "" else p.value.keyId)
            && (!r.valid ==> r.timestamp == "")
  {
    hide ParseSignature, StripSignature;
  }

  /** A policy that was just signed verifies whenever the key id is plain and the text ended properly and held no block,
      even if MACs collide. */
  lemma SignThenVerify(content: string, mac: Mac, key: Key, keyId: string, timestamp: string)
    requires HexLike(mac) && Plain(timestamp) && Plain(keyId) && EndsProperly(content) && !HasMarker(content)
    ensures Verify(Sign(content, mac, key, keyId, timestamp), mac, key, keyId).valid
  {
    hide Sign, StripSignature, HexLike, Plain, Verify, EndsProperly, HasMarker, Closed;
    VerifySigned(content, mac, key, keyId, timestamp);
    StripSignedIff(content, mac, key, keyId, timestamp);
  }

  /** Exactly when a text that was just signed verifies, under MACs that never collide: without a block of its own,
      when the key id is plain and the text ended properly; with one, the old block decides: it must have ended within
      the text, and the text must have verified before. */
  lemma SignThenVerifyIff(content: string, mac: Mac, key: Key, keyId: string, timestamp: string)
    requires forall k, t, u :: mac(k, t) == mac(k, u) ==> t == u
    requires HexLike(mac) && Plain(timestamp)
    ensures Verify(Sign(content, mac, key, keyId, timestamp), mac, key, keyId).valid <==>
            if HasMarker(content) then Closed(content) && Verify(content, mac, key, keyId).valid
            else Plain(keyId) && EndsProperly(content)
  {
    hide Sign, StripSignature, HexLike, Plain, Verify, EndsProperly, HasMarker, Closed;
    var signed := Sign(content, mac, key, keyId, timestamp);
    if Plain(keyId) {
      if HasMarker(content) && Closed(content) {
        VerifyMarked(content, mac, key, keyId, timestamp);
      } else {
        VerifySigned(content, mac, key, keyId, timestamp);
        StripSignedIff(content, mac, key, keyId, timestamp);
      }
    } else {
      if Verify(signed, mac, key, keyId).valid { VerifiedKeyIdIsPlain(signed, mac, key, keyId); }
      if Verify(content, mac, key, keyId).valid { VerifiedKeyIdIsPlain(content, mac, key, keyId); }
    }
  }

  /** `sign_policy_file`: strip what is there, then sign. */
  function SignFile(content: string, mac: Mac, key: Key, keyId: string, timestamp: string): string {
    Sign(StripSignature(content), mac, key, keyId, timestamp)
  }

  /** Signing a file again always verifies: stripping normalised its text. Signing it the first time
      verifies exactly when the text ended properly. */
  lemma SignFileVerifiesIff(content: string, mac: Mac, key: Key, keyId: string, timestamp: string)
    requires forall k, t, u :: mac(k, t) == mac(k, u) ==> t == u
    requires HexLike(mac) && Plain(keyId) && Plain(timestamp)
    ensures Verify(SignFile(content, mac, key, keyId, timestamp), mac, key, keyId).valid
       <==> HasMarker(content) || EndsProperly(content)
  {
    StrippedIsClean(content);
    SignThenVerifyIff(StripSignature(content), mac, key, keyId, timestamp);
  }

  /** Signing a signed file keeps the policy and replaces everything from the marker on, text below the old block
      included: the file is then the policy and one block. */
  lemma ResignKeepsPolicy(content: string, mac: Mac, key: Key, keyId: string, timestamp: string)
    requires HexLike(mac) && Plain(keyId) && Plain(timestamp) && HasMarker(content)
    ensures StripSignature(SignFile(content, mac, key, keyId, timestamp)) == StripSignature(content)
    ensures Split(SignFile(content, mac, key, keyId, timestamp))
         == Split(StripSignature(content)) + BlockLines(ALGORITHM, mac(key, StripSignature(content)), timestamp, keyId)
  {
    hide StripSignature, Sign, Split, BlockLines;
    StrippedIsClean(content);
    StripSignedIff(StripSignature(content), mac, key, keyId, timestamp);
    SignedLines(StripSignature(content), mac, key, keyId, timestamp);
  }

  /** A valid signature pins the policy text: two files that verify under one key carry the same signature exactly
      when they hold the same policy. */
  lemma ValidSignaturePinsText(a: string, b: string, mac: Mac, key: Key, idA: string, idB: string)
    requires forall k, t, u :: mac(k, t) == mac(k, u) ==> t == u
    ensures Verify(a, mac, key, idA).valid && Verify(b, mac, key, idB).valid ==>
              ParseSignature(a).Some? && ParseSignature(b).Some?
              && (ParseSignature(a).value.signature == ParseSignature(b).value.signature
                  <==> StripSignature(a) == StripSignature(b))
  {
    hide ParseSignature, StripSignature;
    assert mac(key, StripSignature(a)) == mac(key, StripSignature(b)) ==> StripSignature(a) == StripSignature(b);
  }

  // ---- the loops ----

  method FindMarker(lines: seq<string>) returns (markerIdx: Option<nat>)
    ensures markerIdx == if MarkerIndex(lines) == |lines| then None else Some(MarkerIndex(lines))
  {
    for i := 0 to |lines|
      invariant MarkerIndex(lines) == i + MarkerIndex(lines[i..])
    {
      assert lines[i..][0] == lines[i] && lines[i..][1..] == lines[i + 1..];
      if Strip(lines[i]) == Strip(MARKER) {
        MarkerIsMarker();
        return Some(i);
      }
      MarkerIsMarker();
    }
    return None;
  }

  method StripSignatureBlock(content: string) returns (policy: string)
    ensures policy == StripSignature(content)
  {
    var lines := Split(content);
    var markerIdx := FindMarker(lines);
    if markerIdx.None? { return content; }
    var policyLines := lines[..markerIdx.value];
    while policyLines != [] && Strip(policyLines[|policyLines| - 1]) == ""
      invariant DropBlankTail(policyLines) == DropBlankTail(lines[..markerIdx.value])
      decreases |policyLines|
    {
      policyLines := policyLines[..|policyLines| - 1];
    }
    policy := Join(policyLines) + "\n";
  }

  method ReadField(line: string, before: Signature) returns (sig: Signature)
    ensures sig == ParseLine(line, before)
  {
    hide Strip, StripHashes;
    sig := before;
    var stripped := Strip(StripHashes(Strip(line)));
    if StartsWith(stripped, "algorithm:") {
      sig := sig.(algorithm := Strip(stripped[10..]));
    } else if StartsWith(stripped, "signature:") {
      sig := sig.(signature := Strip(stripped[10..]));
    } else if StartsWith(stripped, "timestamp:") {
      sig := sig.(timestamp := Strip(stripped[10..]));
    } else if StartsWith(stripped, "key_id:") {
      sig := sig.(keyId := Strip(stripped[7..]));
    }
  }

  lemma ParseStop(lines: seq<string>, i: nat, sig: Signature)
    requires i <= |lines| && (i == |lines| || EndsBlock(lines[i]))
    ensures ParseLines(lines[i..], sig) == sig
  {
  }

  method ReadBlock(lines: seq<string>) returns (sig: Signature)
    ensures sig == ParseLines(lines, UNSET)
  {
    hide ParseLines, ParseLine, Strip;
    sig := UNSET;
    var i := 0;
    assert lines[0..] == lines;
    while i < |lines|
      invariant i <= |lines|
      invariant ParseLines(lines[i..], sig) == ParseLines(lines, UNSET)
    {
      var stripped := Strip(lines[i]);
      if stripped == "" || stripped[0] != '#' {
        ParseStop(lines, i, sig);
        return;
      }
      ParseTurn(lines, i, sig);
      sig := ReadField(lines[i], sig);
      i := i + 1;
    }
    ParseStop(lines, i, sig);
  }

  method ParseSignatureBlock(content: string) returns (parsed: Option<Signature>)
    ensures parsed == ParseSignature(content)
  {
    hide ParseLines, MarkerIndex, Split;
    var lines := Split(content);
    var markerIdx := FindMarker(lines);
    if markerIdx.None? { return None; }
    var sig := ReadBlock(lines[markerIdx.value + 1..]);
    parsed := if sig.algorithm == "" || sig.signature == "" then None else Some(sig);
  }
}
