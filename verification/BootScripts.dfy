/** The iPXE and GRUB boot scripts, and reading them back. */
module BootScripts {
  import opened Results
  import opened Enumerations
  import opened Formats
  import opened Text
  import SortedKeys

  // ---------- the templates ----------

  /** One kernel argument: a bare key for an empty value. */
  function Token(k: string, v: string): string {
    if v != "" then k + "=" + v else k
  }

  function TokenOf(cmdline: map<string, string>): string -> seq<string> {
    k => [Token(k, if k in cmdline then cmdline[k] else "")]
  }

  /** A template ranges over a map in sorted key order. */
  ghost function Tokens(cmdline: map<string, string>): seq<string> {
    FlatMap(TokenOf(cmdline), SortedKeys.Sorted(cmdline.Keys))
  }

  function Args(quote: string, tokens: seq<string>): string {
    if tokens == [] then "" else " " + quote + tokens[0] + quote + Args(quote, tokens[1..])
  }

  function Images(quote: string, images: seq<string>): string {
    if images == [] then "" else quote + images[0] + quote + " " + Images(quote, images[1..])
  }

  function IpxeLines(boot: NetBoot, tokens: seq<string>): (lines: seq<string>)
    ensures |lines| == 5
  {
    ["#!ipxe", "kernel " + boot.kernel + Args("", tokens), "initrd " + Images("", boot.initrd), "boot", ""]
  }

  function GrubLines(boot: NetBoot, tokens: seq<string>): (lines: seq<string>)
    ensures |lines| == 9
  {
    ["default=0", "timeout=1", "menuentry \"CoreOS\" {", "echo \"Loading kernel\"",
     "linuxefi \"" + boot.kernel + "\"" + Args("\"", tokens),
     "echo \"Loading initrd\"", "initrdefi " + Images("\"", boot.initrd), "}", ""]
  }

  ghost function IpxeScript(boot: NetBoot): string {
    Join(IpxeLines(boot, Tokens(boot.cmdline)), '\n')
  }

  ghost function GrubScript(boot: NetBoot): string {
    Join(GrubLines(boot, Tokens(boot.cmdline)), '\n')
  }

  /** The range over the command line. */
  method CollectTokens(cmdline: map<string, string>) returns (tokens: seq<string>)
    ensures tokens == Tokens(cmdline)
  {
    var keys := SortedKeys.SortKeys(cmdline.Keys);
    tokens := [];
    var i := 0;
    while i < |keys|
      invariant 0 <= i <= |keys|
      invariant tokens == FlatMap(TokenOf(cmdline), keys[..i])
    {
      assert keys[i] in keys;
      FlatMapNext(TokenOf(cmdline), keys, i);
      tokens := tokens + [Token(keys[i], cmdline[keys[i]])];
      i := i + 1;
    }
    assert keys[..i] == keys;
  }

  method RenderIpxe(boot: NetBoot) returns (script: string)
    ensures script == IpxeScript(boot)
  {
    var tokens := CollectTokens(boot.cmdline);
    script := Join(IpxeLines(boot, tokens), '\n');
  }

  method RenderGrub(boot: NetBoot) returns (script: string)
    ensures script == GrubScript(boot)
  {
    var tokens := CollectTokens(boot.cmdline);
    script := Join(GrubLines(boot, tokens), '\n');
  }

  // ---------- the scripts as texts ----------

  /** `tokens` are the command line's arguments, in the ascending order of its keys: `key=value`, or a bare key. */
  ghost predicate AreTokens(tokens: seq<string>, keys: seq<string>, cmdline: map<string, string>) {
    && Lists(keys, cmdline.Keys) && (forall i, j :: 0 <= i < j < |keys| ==> Text.Less(keys[i], keys[j]))
    && |tokens| == |keys|
    && forall i :: 0 <= i < |keys| ==>
                     && keys[i] in cmdline
                     && tokens[i] == if cmdline[keys[i]] == "" then keys[i] else keys[i] + "=" + cmdline[keys[i]]
  }

  /** Every text of `xs` between `before` and `after`. */
  function Each(before: string, xs: seq<string>, after: string): string {
    if xs == [] then "" else before + xs[0] + after + Each(before, xs[1..], after)
  }

  lemma {:induction false} TokensInOrder(tokens: seq<string>, keys: seq<string>, cmdline: map<string, string>)
    requires |tokens| == |keys|
    requires forall i :: 0 <= i < |keys| ==> keys[i] in cmdline && tokens[i] == Token(keys[i], cmdline[keys[i]])
    ensures FlatMap(TokenOf(cmdline), keys) == tokens
  {
    if keys != [] {
      TokensInOrder(tokens[1..], keys[1..], cmdline);
      assert tokens == [tokens[0]] + tokens[1..];
    }
  }

  /** There is one such sequence of arguments, and it is the one that is rendered. */
  lemma TokensExact(cmdline: map<string, string>, tokens: seq<string>)
    ensures tokens == Tokens(cmdline) <==> exists keys :: AreTokens(tokens, keys, cmdline)
  {
    hide Text.Less, FlatMap, SortedKeys.Sorted;
    if keys :| AreTokens(tokens, keys, cmdline) {
      SortedKeys.AscendingIsSorted(keys, cmdline.Keys);
      TokensInOrder(tokens, keys, cmdline);
    }
    if tokens == Tokens(cmdline) {
      var keys := SortedKeys.Sorted(cmdline.Keys);
      SortedKeys.SortedAscends(cmdline.Keys);
      forall i | 0 <= i < |keys| ensures keys[i] in cmdline {
        assert keys[i] in keys;
      }
      var texts := seq(|keys|, i requires 0 <= i < |keys| => Token(keys[i], cmdline[keys[i]]));
      TokensInOrder(texts, keys, cmdline);
      assert AreTokens(tokens, keys, cmdline);
    }
  }

  lemma {:induction false} ArgsEach(quote: string, tokens: seq<string>)
    ensures Args(quote, tokens) == Each(" " + quote, tokens, quote)
  {
    if tokens != [] {
      ArgsEach(quote, tokens[1..]);
    }
  }

  lemma {:induction false} ImagesEach(quote: string, images: seq<string>)
    ensures Images(quote, images) == Each(quote, images, quote + " ")
  {
    if images != [] {
      ImagesEach(quote, images[1..]);
      Shift(quote + images[0], quote, " ");
    }
  }

  lemma JoinCons(line: string, lines: seq<string>)
    requires lines != []
    ensures Join([line] + lines, '\n') == line + "\n" + Join(lines, '\n')
  {
    assert ([line] + lines)[1..] == lines;
  }

  /** The iPXE script of a Profile's boot settings, to the letter. */
  lemma IpxeExact(boot: NetBoot, tokens: seq<string>, keys: seq<string>)
    requires AreTokens(tokens, keys, boot.cmdline)
    ensures IpxeScript(boot) ==
            "#!ipxe" + "\n" +
            ("kernel " + boot.kernel + Each(" ", tokens, "") + "\n" +
             ("initrd " + Each("", boot.initrd, " ") + "\n" +
              ("boot" + "\n")))
  {
    hide AreTokens, Tokens, Args, Images, Each, Join;
    TokensExact(boot.cmdline, tokens);
    ArgsEach("", tokens);
    AddEmpty(" ");
    ImagesEach("", boot.initrd);
    assert "" + " " == " ";
    var kernel, initrd := "kernel " + boot.kernel + Args("", tokens), "initrd " + Images("", boot.initrd);
    IpxeLinesAre(boot, tokens, kernel, initrd);
    JoinCons("#!ipxe", [kernel, initrd, "boot", ""]);
    JoinCons(kernel, [initrd, "boot", ""]);
    JoinCons(initrd, ["boot", ""]);
    JoinCons("boot", [""]);
    JoinLast();
    AddEmpty("boot" + "\n");
  }

  lemma JoinLast()
    ensures Join([""], '\n') == ""
  {
  }

  lemma IpxeLinesAre(boot: NetBoot, tokens: seq<string>, kernel: string, initrd: string)
    requires kernel == "kernel " + boot.kernel + Args("", tokens) && initrd == "initrd " + Images("", boot.initrd)
    ensures IpxeLines(boot, tokens) == ["#!ipxe"] + [kernel, initrd, "boot", ""]
    ensures [kernel, initrd, "boot", ""] == [kernel] + [initrd, "boot", ""]
    ensures [initrd, "boot", ""] == [initrd] + ["boot", ""] && ["boot", ""] == ["boot"] + [""]
  {
  }

  /** The GRUB configuration of a Profile's boot settings, to the letter. */
  lemma GrubExact(boot: NetBoot, tokens: seq<string>, keys: seq<string>)
    requires AreTokens(tokens, keys, boot.cmdline)
    ensures GrubScript(boot) ==
            "default=0" + "\n" + ("timeout=1" + "\n" + ("menuentry \"CoreOS\" {" + "\n" +
            ("echo \"Loading kernel\"" + "\n" +
             ("linuxefi \"" + boot.kernel + "\"" + Each(" \"", tokens, "\"") + "\n" +
              ("echo \"Loading initrd\"" + "\n" +
               ("initrdefi " + Each("\"", boot.initrd, "\" ") + "\n" +
                ("}" + "\n")))))))
  {
    hide AreTokens, Tokens, Args, Images, Each, Join, GrubLines;
    TokensExact(boot.cmdline, tokens);
    ArgsEach("\"", tokens);
    ImagesEach("\"", boot.initrd);
    assert " " + "\"" == " \"" && "\"" + " " == "\" ";
    var kernel := "linuxefi \"" + boot.kernel + "\"" + Args("\"", tokens);
    var initrd := "initrdefi " + Images("\"", boot.initrd);
    GrubLinesAre(boot, tokens, kernel, initrd);
    JoinGrub("default=0", "timeout=1", "menuentry \"CoreOS\" {", "echo \"Loading kernel\"", kernel,
             "echo \"Loading initrd\"", initrd, "}");
  }

  lemma GrubLinesAre(boot: NetBoot, tokens: seq<string>, kernel: string, initrd: string)
    requires kernel == "linuxefi \"" + boot.kernel + "\"" + Args("\"", tokens)
    requires initrd == "initrdefi " + Images("\"", boot.initrd)
    ensures GrubLines(boot, tokens) == ["default=0", "timeout=1", "menuentry \"CoreOS\" {",
                                        "echo \"Loading kernel\"", kernel, "echo \"Loading initrd\"", initrd, "}", ""]
  {
  }

  lemma JoinGrub(a: string, b: string, c: string, d: string, e: string, f: string, g: string, h: string)
    ensures Join([a, b, c, d, e, f, g, h, ""], '\n') ==
            a + "\n" + (b + "\n" + (c + "\n" + (d + "\n" + (e + "\n" + (f + "\n" + (g + "\n" + (h + "\n")))))))
  {
    hide Join;
    assert [a, b, c, d, e, f, g, h, ""] == [a] + [b, c, d, e, f, g, h, ""];
    assert [b, c, d, e, f, g, h, ""] == [b] + [c, d, e, f, g, h, ""];
    assert [c, d, e, f, g, h, ""] == [c] + [d, e, f, g, h, ""];
    assert [d, e, f, g, h, ""] == [d] + [e, f, g, h, ""];
    assert [e, f, g, h, ""] == [e] + [f, g, h, ""];
    assert [f, g, h, ""] == [f] + [g, h, ""];
    assert [g, h, ""] == [g] + [h, ""];
    assert [h, ""] == [h] + [""];
    JoinCons(a, [b, c, d, e, f, g, h, ""]);
    JoinCons(b, [c, d, e, f, g, h, ""]);
    JoinCons(c, [d, e, f, g, h, ""]);
    JoinCons(d, [e, f, g, h, ""]);
    JoinCons(e, [f, g, h, ""]);
    JoinCons(f, [g, h, ""]);
    JoinCons(g, [h, ""]);
    JoinCons(h, [""]);
    JoinLast();
    AddEmpty(h + "\n");
  }

  // ---------- reading scripts ----------

  function NonEmpty(): string -> seq<string> {
    (w: string) => if w == "" then [] else [w]
  }

  /** The words of an iPXE line, between runs of blanks. */
  function Words(line: string): seq<string> {
    FlatMap(NonEmpty(), Split(line, ' '))
  }

  /** The quoted words of a GRUB line. */
  function Quoted(line: string): seq<string> {
    EveryOther(Split(line, '"'))
  }

  function EveryOther(parts: seq<string>): seq<string> {
    if |parts| < 2 then [] else [parts[1]] + EveryOther(parts[2..])
  }

  /** Kernel arguments as keys and values. */
  function Arguments(tokens: seq<string>): map<string, string> {
    if tokens == [] then map[]
    else
      var last := tokens[|tokens| - 1];
      var (k, v) := if Cut(last, '=').Some? then Cut(last, '=').value else (last, "");
      Arguments(tokens[..|tokens| - 1])[k := v]
  }

  function ReadIpxe(script: string): Option<NetBoot> {
    var lines := Split(script, '\n');
    if |lines| < 3 || |Words(lines[1])| < 2 || |Words(lines[2])| < 1 then None
    else Some(NetBoot(Words(lines[1])[1], Words(lines[2])[1..], Arguments(Words(lines[1])[2..])))
  }

  function ReadGrub(script: string): Option<NetBoot> {
    var lines := Split(script, '\n');
    if |lines| < 7 || |Quoted(lines[4])| < 1 then None
    else Some(NetBoot(Quoted(lines[4])[0], Quoted(lines[6]), Arguments(Quoted(lines[4])[1..])))
  }

  // ---------- command lines ----------

  lemma TokenReads(k: string, v: string)
    requires '=' !in k
    ensures (if Cut(Token(k, v), '=').Some? then Cut(Token(k, v), '=').value else (Token(k, v), "")) == (k, v)
  {
    if v != "" {
      assert k + "=" + v == k + ['='] + v;
      CutAtFirst(k, '=', v);
    } else {
      CutNone(k, '=');
    }
  }

  /** `args` holds the entries of `cmdline` under `keys`, and no others. */
  ghost predicate HoldsEntries(args: map<string, string>, cmdline: map<string, string>, keys: seq<string>) {
    && (forall k :: k in args <==> k in keys)
    && (forall k :: k in args ==> k in cmdline && args[k] == cmdline[k])
  }

  lemma HoldsNext(args: map<string, string>, cmdline: map<string, string>, keys: seq<string>, k: string)
    requires HoldsEntries(args, cmdline, keys) && k in cmdline
    ensures HoldsEntries(args[k := cmdline[k]], cmdline, keys + [k])
  {
  }

  lemma {:induction false} ArgumentsOfTokens(cmdline: map<string, string>, keys: seq<string>)
    requires forall k :: k in cmdline ==> '=' !in k
    requires forall k :: k in keys ==> k in cmdline
    ensures HoldsEntries(Arguments(FlatMap(TokenOf(cmdline), keys)), cmdline, keys)
  {
    if keys != [] {
      var last := |keys| - 1;
      var init, k := keys[..last], keys[last];
      assert k in keys && keys[..last + 1] == keys == init + [k];
      assert forall l :: l in init ==> l in keys;
      ArgumentsOfTokens(cmdline, init);
      FlatMapNext(TokenOf(cmdline), keys, last);
      var tokens, token := FlatMap(TokenOf(cmdline), init), Token(k, cmdline[k]);
      assert FlatMap(TokenOf(cmdline), keys) == tokens + [token];
      ArgumentsNext(tokens, k, cmdline[k]);
      hide HoldsEntries, Arguments, FlatMap, Token;
      HoldsNext(Arguments(tokens), cmdline, init, k);
    }
  }

  lemma ArgumentsNext(tokens: seq<string>, k: string, v: string)
    requires '=' !in k
    ensures Arguments(tokens + [Token(k, v)]) == Arguments(tokens)[k := v]
  {
    TokenReads(k, v);
    hide Token, Cut;
    assert (tokens + [Token(k, v)])[..|tokens|] == tokens;
  }

  lemma CmdlineReads(cmdline: map<string, string>)
    requires forall k :: k in cmdline ==> '=' !in k
    ensures Arguments(Tokens(cmdline)) == cmdline
  {
    SortedKeys.SortedAnyOrder(SortedKeys.KeyOrder(cmdline.Keys), cmdline.Keys);
    ArgumentsOfTokens(cmdline, SortedKeys.Sorted(cmdline.Keys));
  }

  /** Every token is one entry's. */
  lemma TokensAreEntries(cmdline: map<string, string>)
    ensures forall t :: t in Tokens(cmdline) ==> exists k :: k in cmdline && t == Token(k, cmdline[k])
  {
    hide Token;
    SortedKeys.SortedAnyOrder(SortedKeys.KeyOrder(cmdline.Keys), cmdline.Keys);
    var keys := SortedKeys.Sorted(cmdline.Keys);
    forall t | t in Tokens(cmdline) ensures exists k :: k in cmdline && t == Token(k, cmdline[k]) {
      FlatMapMember(TokenOf(cmdline), keys, t);
      var i :| 0 <= i < |keys| && t in TokenOf(cmdline)(keys[i]);
      assert keys[i] in keys;
    }
  }

  // ---------- iPXE ----------

  /** A word that a line split at blanks keeps whole. */
  predicate Word(w: string) {
    w != "" && ' ' !in w && '\t' !in w && '\r' !in w && '\n' !in w
  }

  ghost predicate AllWords(ws: seq<string>) {
    forall i :: 0 <= i < |ws| ==> Word(ws[i])
  }

  lemma WordsNext(w: string, rest: string)
    requires Word(w)
    ensures Words(w + " " + rest) == [w] + Words(rest)
    ensures Words(" " + rest) == Words(rest)
    ensures Words(w) == [w]
  {
    assert w + " " + rest == w + [' '] + rest && " " + rest == "" + [' '] + rest;
    SplitConcat(w, rest, ' ');
    SplitConcat("", rest, ' ');
    SplitPiece(w, ' ');
    FlatMapConcat(NonEmpty(), [w], Split(rest, ' '));
    FlatMapConcat(NonEmpty(), [""], Split(rest, ' '));
    assert FlatMap(NonEmpty(), [w]) == [w] && FlatMap(NonEmpty(), [""]) == [];
  }

  lemma AddEmpty(s: string)
    ensures s + "" == s
  {
  }

  lemma ArgsUnquoted(tokens: seq<string>)
    requires tokens != []
    ensures Args("", tokens) == " " + tokens[0] + Args("", tokens[1..])
  {
    AddEmpty(" ");
    AddEmpty(" " + tokens[0]);
  }

  lemma ArgsNext(w: string, tokens: seq<string>)
    requires tokens != []
    ensures w + Args("", tokens) == w + " " + (tokens[0] + Args("", tokens[1..]))
  {
    hide Args;
    ArgsUnquoted(tokens);
    Shift(" ", tokens[0], Args("", tokens[1..]));
    Shift(w, " ", tokens[0] + Args("", tokens[1..]));
  }

  lemma {:induction false} WordsOfArgs(w: string, tokens: seq<string>)
    requires Word(w) && AllWords(tokens)
    ensures Words(w + Args("", tokens)) == [w] + tokens
    decreases |tokens|
  {
    if tokens == [] {
      hide Words;
      WordsNext(w, "");
      assert w + "" == w;
    } else {
      ArgsNext(w, tokens);
      hide Words, Word, Args;
      WordsNext(w, tokens[0] + Args("", tokens[1..]));
      WordsOfArgs(tokens[0], tokens[1..]);
      assert tokens == [tokens[0]] + tokens[1..];
    }
  }

  lemma {:induction false} WordsOfImages(images: seq<string>)
    requires AllWords(images)
    ensures Words(Images("", images)) == images
  {
    if images == [] {
      assert FlatMap(NonEmpty(), [""]) == [];
    } else {
      hide Words, Word;
      assert Images("", images) == images[0] + " " + Images("", images[1..]);
      WordsNext(images[0], Images("", images[1..]));
      WordsOfImages(images[1..]);
    }
  }

  /** What the iPXE script needs: words throughout, and keys without '='. */
  ghost predicate IpxeSafe(boot: NetBoot) {
    && Word(boot.kernel) && AllWords(boot.initrd)
    && forall k :: k in boot.cmdline ==> '=' !in k && Word(Token(k, boot.cmdline[k]))
  }

  lemma {:induction false} ArgsChars(quote: string, xs: seq<string>, c: char)
    requires c !in quote && c != ' ' && forall i :: 0 <= i < |xs| ==> c !in xs[i]
    ensures c !in Args(quote, xs) && c !in Images(quote, xs)
  {
    if xs != [] {
      assert forall i :: 0 <= i < |xs| - 1 ==> xs[1..][i] == xs[i + 1];
      ArgsChars(quote, xs[1..], c);
    }
  }

  lemma SafeTokens(boot: NetBoot)
    requires IpxeSafe(boot)
    ensures AllWords(Tokens(boot.cmdline))
  {
    hide Word, Tokens, Token;
    TokensAreEntries(boot.cmdline);
    forall i | 0 <= i < |Tokens(boot.cmdline)| ensures Word(Tokens(boot.cmdline)[i]) {
      assert Tokens(boot.cmdline)[i] in Tokens(boot.cmdline);
    }
  }

  /** Reading the iPXE script gives the Profile's boot settings back. */
  lemma IpxeRoundTrip(boot: NetBoot)
    requires IpxeSafe(boot)
    ensures ReadIpxe(IpxeScript(boot)) == Some(boot)
  {
    var tokens := Tokens(boot.cmdline);
    SafeTokens(boot);
    CmdlineReads(boot.cmdline);
    hide Tokens, Token, Arguments;
    IpxeLinesRead(boot, tokens);
  }

  lemma IpxeLinesRead(boot: NetBoot, tokens: seq<string>)
    requires Word(boot.kernel) && AllWords(boot.initrd) && AllWords(tokens)
    ensures ReadIpxe(Join(IpxeLines(boot, tokens), '\n')) == Some(boot.(cmdline := Arguments(tokens)))
  {
    IpxeFree(boot, tokens);
    IpxeWords(boot, tokens);
    hide IpxeLines, Words, Arguments, Split, Join, Word, AllWords;
    SplitJoin(IpxeLines(boot, tokens), '\n');
  }

  lemma IpxeFree(boot: NetBoot, tokens: seq<string>)
    requires Word(boot.kernel) && AllWords(boot.initrd) && AllWords(tokens)
    ensures Free(IpxeLines(boot, tokens), '\n')
  {
    ArgsChars("", tokens, '\n');
    ArgsChars("", boot.initrd, '\n');
    hide Args, Images, AllWords;
  }

  lemma IpxeWords(boot: NetBoot, tokens: seq<string>)
    requires Word(boot.kernel) && AllWords(boot.initrd) && AllWords(tokens)
    ensures Words(IpxeLines(boot, tokens)[1]) == ["kernel", boot.kernel] + tokens
    ensures Words(IpxeLines(boot, tokens)[2]) == ["initrd"] + boot.initrd
  {
    hide Words, Args, Images, Word, AllWords;
    IpxeKernelLine(boot, tokens);
    IpxeInitrdLine(boot);
  }

  lemma IpxeKernelLine(boot: NetBoot, tokens: seq<string>)
    requires Word(boot.kernel) && AllWords(tokens)
    ensures Words("kernel " + boot.kernel + Args("", tokens)) == ["kernel", boot.kernel] + tokens
  {
    hide Words;
    assert "kernel " + boot.kernel + Args("", tokens) == "kernel" + Args("", [boot.kernel] + tokens);
    assert Word("kernel");
    WordsOfArgs("kernel", [boot.kernel] + tokens);
  }

  lemma IpxeInitrdLine(boot: NetBoot)
    requires AllWords(boot.initrd)
    ensures Words("initrd " + Images("", boot.initrd)) == ["initrd"] + boot.initrd
  {
    hide Words;
    assert Word("initrd");
    assert "initrd " + Images("", boot.initrd) == "initrd" + " " + Images("", boot.initrd);
    WordsNext("initrd", Images("", boot.initrd));
    WordsOfImages(boot.initrd);
  }

  // ---------- GRUB ----------

  /** Text that keeps its place between two quotes on one line. */
  predicate Quotable(s: string) {
    '"' !in s && '\n' !in s
  }

  lemma QuotedNext(lead: string, t: string, rest: string)
    requires '"' !in lead && '"' !in t
    ensures Quoted(lead + "\"" + t + "\"" + rest) == [t] + Quoted(rest)
    ensures Quoted(lead) == []
  {
    assert lead + "\"" + t + "\"" + rest == lead + ['"'] + (t + ['"'] + rest);
    SplitConcat(lead, t + ['"'] + rest, '"');
    SplitConcat(t, rest, '"');
    SplitPiece(lead, '"');
    SplitPiece(t, '"');
    assert ([lead] + ([t] + Split(rest, '"')))[2..] == Split(rest, '"');
  }

  lemma {:induction false} QuotedArgs(tokens: seq<string>)
    requires forall i :: 0 <= i < |tokens| ==> Quotable(tokens[i])
    ensures Quoted(Args("\"", tokens)) == tokens
  {
    if tokens == [] {
      QuotedNext("", "", "");
    } else {
      QuotedNext(" ", tokens[0], Args("\"", tokens[1..]));
      QuotedArgs(tokens[1..]);
    }
  }

  lemma {:induction false} QuotedImages(lead: string, images: seq<string>)
    requires '"' !in lead && forall i :: 0 <= i < |images| ==> Quotable(images[i])
    ensures Quoted(lead + Images("\"", images)) == images
    decreases |images|
  {
    if images == [] {
      QuotedNext(lead, "", "");
      assert lead + "" == lead;
    } else {
      var rest := " " + Images("\"", images[1..]);
      assert lead + Images("\"", images) == lead + "\"" + images[0] + "\"" + rest;
      QuotedNext(lead, images[0], rest);
      QuotedImages(" ", images[1..]);
    }
  }

  /** What the GRUB script needs: no quotes or newlines anywhere, and keys without '='. */
  ghost predicate GrubSafe(boot: NetBoot) {
    && Quotable(boot.kernel) && (forall i :: 0 <= i < |boot.initrd| ==> Quotable(boot.initrd[i]))
    && forall k :: k in boot.cmdline ==> '=' !in k && Quotable(Token(k, boot.cmdline[k]))
  }

  lemma QuotableTokens(boot: NetBoot)
    requires GrubSafe(boot)
    ensures forall i :: 0 <= i < |Tokens(boot.cmdline)| ==> Quotable(Tokens(boot.cmdline)[i])
  {
    hide Quotable, Tokens, Token;
    TokensAreEntries(boot.cmdline);
    forall i | 0 <= i < |Tokens(boot.cmdline)| ensures Quotable(Tokens(boot.cmdline)[i]) {
      assert Tokens(boot.cmdline)[i] in Tokens(boot.cmdline);
    }
  }

  /** Reading the GRUB script gives the Profile's boot settings back, blanks and empty texts included. */
  lemma GrubRoundTrip(boot: NetBoot)
    requires GrubSafe(boot)
    ensures ReadGrub(GrubScript(boot)) == Some(boot)
  {
    var tokens := Tokens(boot.cmdline);
    QuotableTokens(boot);
    CmdlineReads(boot.cmdline);
    hide Tokens, Token, Arguments;
    GrubLinesRead(boot, tokens);
  }

  lemma GrubLinesRead(boot: NetBoot, tokens: seq<string>)
    requires Quotable(boot.kernel) && forall i :: 0 <= i < |boot.initrd| ==> Quotable(boot.initrd[i])
    requires forall i :: 0 <= i < |tokens| ==> Quotable(tokens[i])
    ensures ReadGrub(Join(GrubLines(boot, tokens), '\n')) == Some(boot.(cmdline := Arguments(tokens)))
  {
    GrubFree(boot, tokens);
    GrubQuotedLines(boot, tokens);
    hide GrubLines, Quoted, Arguments, Split, Join, Quotable;
    SplitJoin(GrubLines(boot, tokens), '\n');
  }

  lemma GrubQuotedLines(boot: NetBoot, tokens: seq<string>)
    requires Quotable(boot.kernel) && forall i :: 0 <= i < |boot.initrd| ==> Quotable(boot.initrd[i])
    requires forall i :: 0 <= i < |tokens| ==> Quotable(tokens[i])
    ensures Quoted(GrubLines(boot, tokens)[4]) == [boot.kernel] + tokens
    ensures Quoted(GrubLines(boot, tokens)[6]) == boot.initrd
  {
    hide Quoted, Args, Images;
    QuotedNext("linuxefi ", boot.kernel, Args("\"", tokens));
    QuotedArgs(tokens);
    QuotedImages("initrdefi ", boot.initrd);
    assert GrubLines(boot, tokens)[4] == "linuxefi " + "\"" + boot.kernel + "\"" + Args("\"", tokens);
  }

  lemma GrubFree(boot: NetBoot, tokens: seq<string>)
    requires Quotable(boot.kernel) && forall i :: 0 <= i < |boot.initrd| ==> Quotable(boot.initrd[i])
    requires forall i :: 0 <= i < |tokens| ==> Quotable(tokens[i])
    ensures Free(GrubLines(boot, tokens), '\n')
  {
    ArgsChars("\"", tokens, '\n');
    ArgsChars("\"", boot.initrd, '\n');
    hide Args, Images;
  }

  /** Both scripts of one Profile boot the same kernel, arguments and images. */
  lemma ScriptsAgree(boot: NetBoot)
    requires IpxeSafe(boot) && GrubSafe(boot)
    ensures ReadIpxe(IpxeScript(boot)) == ReadGrub(GrubScript(boot)) == Some(boot)
  {
    IpxeRoundTrip(boot);
    GrubRoundTrip(boot);
  }
}
