/** lib_util.ParseXid: three grammars for the identifier of an object, tried in turn, and the
    encoding which the identifiers have in a URL. */
module Xid {
  import opened Text
  import opened Moniker

  // ---- urllib.quote and urllib.unquote, on bytes ----

  function HexDigit(d: nat): (c: char)
    requires d < 16
    ensures HexValue(c) == d
  {
    if d < 10 then '0' + d as char else 'A' + (d - 10) as char
  }

  // -1 when it is not a hexadecimal digit
  function HexValue(c: char): (v: int)
    ensures -1 <= v < 16
  {
    if '0' <= c <= '9' then c as int - '0' as int
    else if 'A' <= c <= 'F' then c as int - 'A' as int + 10
    else if 'a' <= c <= 'f' then c as int - 'a' as int + 10
    else -1
  }

  predicate IsSafe(c: char) { IsWord(c) || c == '.' || c == '-' }

  ghost predicate IsBytes(s: string) { forall k :: 0 <= k < |s| ==> s[k] as int < 256 }

  function Quote(s: string): string
    requires IsBytes(s)
  {
    if s == "" then ""
    else
      (if IsSafe(s[0]) then [s[0]] else ['%', HexDigit(s[0] as int / 16), HexDigit(s[0] as int % 16)])
      + Quote(s[1..])
  }

  function Unquote(s: string): string
  {
    if s == "" then ""
    else if s[0] == '%' && |s| >= 3 && HexValue(s[1]) >= 0 && HexValue(s[2]) >= 0 then
      [(16 * HexValue(s[1]) + HexValue(s[2])) as char] + Unquote(s[3..])
    else [s[0]] + Unquote(s[1..])
  }

  lemma {:induction false} UnquoteQuote(s: string)
    requires IsBytes(s)
    ensures Unquote(Quote(s)) == s
  {
    if s != "" {
      UnquoteQuote(s[1..]);
      var q := Quote(s);
      if IsSafe(s[0]) {
        assert q == [s[0]] + Quote(s[1..]);
        assert q[1..] == Quote(s[1..]);
      } else {
        assert q[3..] == Quote(s[1..]);
      }
    }
  }

  lemma {:induction false} UnquotePlain(s: string)
    requires '%' !in s
    ensures Unquote(s) == s
  {
    if s != "" {
      assert s[0] in s && forall c :: c in s[1..] ==> c in s;
      UnquotePlain(s[1..]);
    }
  }

  // Nothing which decoding would change.
  predicate NoEscape(s: string)
  {
    s != "" ==> !(s[0] == '%' && |s| >= 3 && HexValue(s[1]) >= 0 && HexValue(s[2]) >= 0) && NoEscape(s[1..])
  }

  lemma {:induction false} UnquoteLength(s: string)
    ensures |Unquote(s)| <= |s|
    ensures |Unquote(s)| == |s| <==> NoEscape(s)
    ensures NoEscape(s) ==> Unquote(s) == s
    decreases |s|
  {
    if s != "" {
      if s[0] == '%' && |s| >= 3 && HexValue(s[1]) >= 0 && HexValue(s[2]) >= 0 {
        UnquoteLength(s[3..]);
      } else {
        UnquoteLength(s[1..]);
      }
    }
  }

  // EncodeUri doubles the backslash before an "L", which graphviz would replace.
  function DoubleL(s: string): string
  {
    if s == "" then ""
    else if "\\L" <= s then "\\\\L" + DoubleL(s[2..])
    else [s[0]] + DoubleL(s[1..])
  }

  function EncodeUri(s: string): string
    requires IsBytes(s)
  {
    DoubleLIsBytes(s);
    Quote(DoubleL(s))
  }

  lemma {:induction false} DoubleLIsBytes(s: string)
    requires IsBytes(s)
    ensures IsBytes(DoubleL(s))
  {
    if s != "" {
      DoubleLIsBytes(s[1..]);
      if "\\L" <= s { DoubleLIsBytes(s[2..]); }
    }
  }

  predicate NoSlashL(s: string) { s != "" ==> !("\\L" <= s) && NoSlashL(s[1..]) }

  lemma {:induction false} DoubleLPlain(s: string)
    requires NoSlashL(s)
    ensures DoubleL(s) == s
  {
    if s != "" {
      DoubleLPlain(s[1..]);
    }
  }

  // ---- the parsers ----

  datatype Entity = Entity(kind: string, id: string, host: string)
  datatype Parsed = Match(entity: Entity) | NoMatch

  predicate IsHostChar(c: char) { IsWord(c) || c == '-' || c == '.' }

  // [-0-9A-Za-z_]*\\?[-0-9A-Za-z_\.]*
  predicate IsLocalHost(h: string)
  {
    var b := IndexOf(h, '\\');
    && (b < |h| ==> forall k :: 0 <= k < b ==> IsHostChar(h[k]) && h[k] != '.')
    && (b == |h| ==> forall k :: 0 <= k < |h| ==> IsHostChar(h[k]))
    && forall k :: b < k < |h| ==> IsHostChar(h[k])
  }

  function TypeSpan(s: string): (i: nat)
    ensures i <= |s|
    ensures forall k :: 0 <= k < i ==> IsWord(s[k]) || s[k] == '/'
    ensures i < |s| ==> !IsWord(s[i]) && s[i] != '/'
  {
    if s == "" || !(IsWord(s[0]) || s[0] == '/') then 0 else 1 + TypeSpan(s[1..])
  }

  // ([a-zA-Z_][a-z0-9A-Z_/]*)\.(.*)
  function ParseType(s: string, host: string): Parsed
  {
    var i := TypeSpan(s);
    if i == 0 || i == |s| || s[i] != '.' || s[0] == '/' || '0' <= s[0] <= '9' then NoMatch
    else Match(Entity(s[..i], Unquote(FirstLine(s[i + 1..])), host))
  }

  function ParseXidLocal(xid: string): Parsed
  {
    var at := IndexOf(xid, '@');
    if at < |xid| && IsLocalHost(xid[..at]) && ParseType(xid[at + 1..], xid[..at]).Match?
    then ParseType(xid[at + 1..], xid[..at])
    else ParseType(xid, "")
  }

  function HostSpan(s: string): (i: nat)
    ensures i <= |s|
    ensures forall k :: 0 <= k < i ==> IsHostChar(s[k])
    ensures i < |s| ==> !IsHostChar(s[i])
  {
    if s == "" || !IsHostChar(s[0]) then 0 else 1 + HostSpan(s[1..])
  }

  // ([a-zA-Z0-9_]+)\\([^.]*)(\..*)
  function ParseNamespace(s: string, host: string): Parsed
  {
    var i := WordSpan(s);
    if i == 0 || i == |s| || s[i] != '\\' then NoMatch
    else
      var dot := IndexOf(s, '.');
      if dot == |s| then NoMatch else Match(Entity(s[..dot], Unquote(FirstLine(s[dot + 1..])), host))
  }

  // ([-0-9A-Za-z_\.]*)\\ and the namespace
  function ParseHostNamespace(s: string): Parsed
  {
    var i := HostSpan(s);
    if i == |s| || s[i] != '\\' then NoMatch else ParseNamespace(s[i + 1..], s[..i])
  }

  predicate Slashes(s: string, n: nat) { n <= |s| && forall k :: 0 <= k < n ==> s[k] == '\\' }

  // A third backslash is skipped when the rest still matches.
  function ParseXidWMI(xid: string): Parsed
  {
    if Slashes(xid, 3) && ParseHostNamespace(xid[3..]).Match? then ParseHostNamespace(xid[3..])
    else if Slashes(xid, 2) && ParseHostNamespace(xid[2..]).Match? then ParseHostNamespace(xid[2..])
    else ParseNamespace(xid, "")
  }

  function HttpLength(s: string): (n: nat)
    ensures n <= |s|
  {
    if "https://" <= s then 8 else if "http://" <= s then 7 else 0
  }

  // (https?://[^/]*)/([^.]*)(\..*)?
  function ParseXidWBEM(xid: string): Parsed
  {
    var n := HttpLength(xid); if n == 0 then NoMatch else ParseWbemHost(xid, n + IndexOf(xid[n..], '/'))
  }

  function ParseWbemHost(xid: string, slash: nat): Parsed
    requires slash <= |xid|
  {
    if slash == |xid| then NoMatch else Match(ParseWbemPath(xid[slash + 1..], xid[..slash]))
  }

  // ([^.]*)(\..*)?
  function ParseWbemPath(rest: string, host: string): Entity
  {
    var dot := IndexOf(rest, '.');
    Entity(rest[..dot], if dot == |rest| then "" else Unquote(FirstLine(rest[dot + 1..])), host)
  }

  function ParseXid(xid: string): Entity
  {
    if ParseXidLocal(xid).Match? then ParseXidLocal(xid).entity
    else
      var x := Unquote(xid);
      if ParseXidWMI(x).Match? then ParseXidWMI(x).entity
      else if ParseXidWBEM(x).Match? then ParseXidWBEM(x).entity
      else Entity("", "", "")
  }

  // ---- the builders ----

  function BuildWmiMoniker(host: string, namespac: string, classNam: string): string
  {
    "\\\\" + host + "\\" + namespac + ":" + classNam + "."
  }

  function BuildWbemMoniker(host: string, namespac: string, classNam: string): string
  {
    if namespac != "" then host + "/" + namespac + ":" + classNam + "." else host + "/" + classNam + "."
  }

  // LocalBox and RemoteBox: TypeMake() + entity_type + "." + entity_id
  function BuildXid(machine: string, kind: string, id: string): string
  {
    (if machine == "" then "" else machine + "@") + kind + "." + id
  }

  // ---- spans ----

  lemma HostSpanAt(a: string, b: string)
    requires forall k :: 0 <= k < |a| ==> IsHostChar(a[k])
    requires b != "" ==> !IsHostChar(b[0])
    ensures HostSpan(a + b) == |a|
  {
    var s, i := a + b, HostSpan(a + b);
    assert forall k :: 0 <= k < |a| ==> s[k] == a[k];
    assert b != "" ==> s[|a|] == b[0];
  }

  lemma TypeSpanAt(a: string, b: string)
    requires forall k :: 0 <= k < |a| ==> IsWord(a[k]) || a[k] == '/'
    requires b != "" ==> !IsWord(b[0]) && b[0] != '/'
    ensures TypeSpan(a + b) == |a|
  {
    var s, i := a + b, TypeSpan(a + b);
    assert forall k :: 0 <= k < |a| ==> s[k] == a[k];
    assert b != "" ==> s[|a|] == b[0];
  }

  // ---- our own identifiers ----

  ghost predicate IsKind(kind: string)
  {
    && kind != "" && kind[0] != '/' && !('0' <= kind[0] <= '9')
    && forall k :: 0 <= k < |kind| ==> IsWord(kind[k]) || kind[k] == '/'
  }

  ghost predicate IsId(id: string) { '%' !in id && '\n' !in id }

  // A "@" is only found after the "=" of a pair.
  ghost predicate EqualBeforeAt(id: string) { '@' in id ==> '=' in id[..IndexOf(id, '@')] }

  // An id which is read as it is: one line, without any escape sequence.
  predicate IsReadable(id: string) { '\n' !in id && NoEscape(id) }

  // What is read of an id.
  function ReadId(id: string): string { Unquote(FirstLine(id)) }

  lemma ReadIdIff(id: string)
    ensures ReadId(id) == id <==> IsReadable(id)
    ensures |ReadId(id)| == |id| <==> IsReadable(id)
    ensures |ReadId(id)| <= |id|
  {
    UnquoteLength(FirstLine(id));
    if '\n' !in id {
      OneLine(id);
    }
  }

  lemma ParseTypeOfPrint(kind: string, id: string, host: string)
    requires IsKind(kind)
    ensures ParseType(kind + "." + id, host) == Match(Entity(kind, ReadId(id), host))
  {
    assert kind + "." + id == kind + ("." + id);
    TypeSpanAt(kind, "." + id);
    var s := kind + ("." + id);
    assert s[0] == kind[0];
    assert s[..|kind|] == kind && s[|kind| + 1..] == id;
  }

  lemma HostHasNo(h: string, c: char)
    requires IsLocalHost(h) && !IsHostChar(c) && c != '\\'
    ensures c !in h
  {
    var b := IndexOf(h, '\\');
    assert forall k :: 0 <= k < |h| ==> h[k] != c;
  }

  // What is before a "@" of the id would be a host, and what is after it another object.
  predicate LooksRemote(kind: string, id: string)
  {
    var at := IndexOf(id, '@');
    at < |id| && IsLocalHost(kind + "." + id[..at]) && ParseType(id[at + 1..], "").Match?
  }

  lemma NotRemote(kind: string, id: string)
    requires EqualBeforeAt(id)
    ensures !LooksRemote(kind, id)
  {
    var at := IndexOf(id, '@');
    if at < |id| {
      var h := kind + "." + id[..at];
      assert '=' in h;
      if IsLocalHost(h) {
        HostHasNo(h, '=');
      }
    }
  }

  lemma ParseTypeHost(s: string, host: string)
    ensures ParseType(s, host).Match? <==> ParseType(s, "").Match?
    ensures ParseType(s, host).Match? ==> ParseType(s, host).entity.host == host
  {
  }

  lemma ParseXidLocalAt(h: string, s: string)
    requires '@' !in h
    ensures
      var xid := h + (['@'] + s);
      ParseXidLocal(xid) == if IsLocalHost(h) && ParseType(s, h).Match? then ParseType(s, h) else ParseType(xid, "")
  {
    Cut(h, '@', s);
  }

  lemma AtOfId(kind: string, id: string)
    requires IsKind(kind) && '@' in id
    ensures
      var at := IndexOf(id, '@');
      var h := kind + "." + id[..at];
      kind + "." + id == h + (['@'] + id[at + 1..]) && '@' !in h
  {
    var at := IndexOf(id, '@');
    Around(id, at);
    Associative(kind + ".", id[..at], ['@'] + id[at + 1..]);
    assert '@' !in kind;
  }

  lemma LocalBoxParts(kind: string, id: string)
    requires IsKind(kind)
    ensures LooksRemote(kind, id) ==> ParseXidLocal(kind + "." + id).Match? && ParseXidLocal(kind + "." + id).entity.host != ""
    ensures !LooksRemote(kind, id) ==> ParseXidLocal(kind + "." + id) == ParseType(kind + "." + id, "")
  {
    if '@' in id {
      var at := IndexOf(id, '@');
      var h, rest := kind + "." + id[..at], id[at + 1..];
      AtOfId(kind, id);
      ParseXidLocalAt(h, rest);
      ParseTypeHost(rest, h);
    } else {
      assert '@' !in kind;
      assert '@' !in kind + "." + id;
    }
  }

  lemma RemoteBoxParts(machine: string, kind: string, id: string)
    requires IsKind(kind) && IsLocalHost(machine)
    ensures ParseXidLocal(machine + (['@'] + (kind + "." + id))) == Match(Entity(kind, ReadId(id), machine))
  {
    HostHasNo(machine, '@');
    ParseXidLocalAt(machine, kind + "." + id);
    ParseTypeOfPrint(kind, id, machine);
  }

  // The parts of any identifier which is built.
  lemma LocalParts(machine: string, kind: string, id: string)
    requires IsKind(kind) && IsLocalHost(machine)
    ensures machine == "" && LooksRemote(kind, id) ==> ParseXid(BuildXid(machine, kind, id)).host != machine
    ensures !(machine == "" && LooksRemote(kind, id)) ==>
      ParseXid(BuildXid(machine, kind, id)) == Entity(kind, ReadId(id), machine)
  {
    if machine == "" {
      BuildLocal(kind, id);
      LocalBoxParts(kind, id);
      ParseTypeOfPrint(kind, id, "");
    } else {
      BuildRemote(machine, kind, id);
      RemoteBoxParts(machine, kind, id);
    }
  }

  lemma BuildLocal(kind: string, id: string)
    ensures BuildXid("", kind, id) == kind + "." + id
  {
  }

  lemma BuildRemote(machine: string, kind: string, id: string)
    requires machine != ""
    ensures BuildXid(machine, kind, id) == machine + (['@'] + (kind + "." + id))
  {
    Associative(machine + "@", kind, ".");
    Associative(machine + "@", kind + ".", id);
    Associative(machine, "@", kind + "." + id);
  }

  // The identifier of an object, local or remote, gives back its three parts: if and only if the id is one line without
  // escape sequences, and does not make a local object look like a remote one.
  lemma LocalRoundTrip(machine: string, kind: string, id: string)
    requires IsKind(kind) && IsLocalHost(machine)
    ensures ParseXid(BuildXid(machine, kind, id)) == Entity(kind, id, machine) <==>
      IsReadable(id) && !(machine == "" && LooksRemote(kind, id))
  {
    LocalParts(machine, kind, id);
    ReadIdIff(id);
  }

  // ---- monikers are left alone by the grammar of our identifiers ----

  lemma {:induction false} QuoteChars(s: string)
    requires IsBytes(s)
    ensures forall c :: c in Quote(s) ==> IsSafe(c) || c == '%'
  {
    if s != "" {
      QuoteChars(s[1..]);
    }
  }

  lemma EncodedHasNoHost(s: string)
    requires IsBytes(s)
    ensures '@' !in Quote(s)
  {
    QuoteChars(s);
  }

  lemma BackslashesAreNotLocal(rest: string)
    ensures ParseXidLocal("\\\\" + rest).NoMatch?
  {
    var xid := "\\\\" + rest;
    var at := IndexOf(xid, '@');
    assert xid[0] == '\\' && xid[1] == '\\';
    if at < |xid| {
      var h := xid[..at];
      assert h[0] == '\\' && h[1] == '\\';
      assert IndexOf(h, '\\') == 0;
    }
  }

  lemma EncodedBackslashIsNotLocal(s: string)
    requires IsBytes(s) && s != "" && s[0] == '\\'
    ensures ParseXidLocal(Quote(s)).NoMatch?
  {
    EncodedHasNoHost(s);
    assert Quote(s)[0] == '%';
  }

  // ---- WMI ----

  // A word, a backslash, then anything but a dot: a namespace, or a namespace with its class.
  predicate IsNamespace(s: string)
  {
    var i := WordSpan(s); 0 < i < |s| && s[i] == '\\' && '.' !in s
  }

  ghost predicate IsWmiHost(host: string) { host != "" && forall k :: 0 <= k < |host| ==> IsHostChar(host[k]) }

  lemma ParseNamespaceIff(kind: string, id: string, host: string)
    requires '.' !in kind && IsId(id)
    ensures ParseNamespace(kind + "." + id, host) == if IsNamespace(kind) then Match(Entity(kind, id, host)) else NoMatch
  {
    var i, s := WordSpan(kind), kind + "." + id;
    Associative(kind, ".", id);
    Cut(kind, '.', id);
    WordSpanPrefix(kind, "." + id);
    assert s[i] == if i < |kind| then kind[i] else '.';
    OneLine(id);
    UnquotePlain(id);
  }

  lemma ParseHostNamespaceOfPrint(host: string, s: string)
    requires IsWmiHost(host)
    ensures ParseHostNamespace(host + ("\\" + s)) == ParseNamespace(s, host)
  {
    HostSpanAt(host, "\\" + s);
    var xid := host + ("\\" + s);
    assert xid[..|host|] == host && xid[|host| + 1..] == s;
  }

  lemma SlashesBefore(p: string, rest: string)
    requires Slashes(p, |p|)
    ensures
      var xid := p + rest;
      Slashes(xid, |p|) && xid[|p|..] == rest && (Slashes(xid, |p| + 1) <==> rest != "" && rest[0] == '\\')
  {
    var xid := p + rest;
    assert rest != "" ==> xid[|p|] == rest[0];
  }

  lemma ParseAfterSlashes(xid: string, n: nat)
    requires Slashes(xid, n) && ParseHostNamespace(xid[n..]).Match?
    requires n == 3 || (n == 2 && (Slashes(xid, 3) ==> ParseHostNamespace(xid[3..]).NoMatch?))
    ensures ParseXidWMI(xid) == ParseHostNamespace(xid[n..])
  {
  }

  lemma TwoOrThreeBackslashes(rest: string, third: bool)
    requires rest != "" && IsHostChar(rest[0]) && ParseHostNamespace(rest).Match?
    ensures ParseXidWMI((if third then "\\\\\\" else "\\\\") + rest) == ParseHostNamespace(rest)
  {
    var p := if third then "\\\\\\" else "\\\\";
    SlashesBefore(p, rest);
    ParseAfterSlashes(p + rest, |p|);
  }

  // The moniker of an object, with two backslashes, or three when the host starts with an "L".
  lemma ParseXidWMIOfPrint(host: string, namespac: string, classNam: string, id: string, third: bool)
    requires IsWmiHost(host) && IsNamespace(namespac) && '.' !in classNam && IsId(id)
    ensures ParseXidWMI((if third then "\\\\\\" else "\\\\") + (host + ("\\" + (namespac + ":" + classNam + "." + id)))) ==
      Match(Entity(namespac + ":" + classNam, id, host))
  {
    KindOfNamespace(namespac, classNam);
    ParseNamespaceIff(namespac + ":" + classNam, id, host);
    ParseHostNamespaceOfPrint(host, namespac + ":" + classNam + "." + id);
    TwoOrThreeBackslashes(host + ("\\" + (namespac + ":" + classNam + "." + id)), third);
  }

  // The parts of a moniker after its first two backslashes.
  function WmiRest(host: string, kind: string, id: string): string
  {
    host + ("\\" + (kind + "." + id))
  }

  lemma WmiMonikerIs(host: string, namespac: string, classNam: string, id: string)
    ensures BuildWmiMoniker(host, namespac, classNam) + id == "\\\\" + WmiRest(host, namespac + ":" + classNam, id)
  {
  }

  lemma KindOfNamespace(namespac: string, classNam: string)
    ensures IsNamespace(namespac + ":" + classNam) <==> IsNamespace(namespac) && '.' !in classNam
  {
    var kind, i := namespac + ":" + classNam, WordSpan(namespac);
    Associative(namespac, ":", classNam);
    WordSpanPrefix(namespac, ":" + classNam);
    assert kind[i] == if i < |namespac| then namespac[i] else ':';
    assert forall c :: c in kind <==> c in namespac || c == ':' || c in classNam;
  }

  lemma PrefixIsNamespace(s: string, dot: nat)
    requires WordSpan(s) < dot <= |s| && WordSpan(s) > 0 && s[WordSpan(s)] == '\\' && '.' !in s[..dot]
    ensures IsNamespace(s[..dot])
  {
    WordSpanOfPrefix(s, dot);
  }

  // What is parsed is in the text, in the same order.
  lemma NamespaceIsParsed(s: string, host: string) returns (kind: string, quoted: string)
    requires ParseNamespace(s, host).Match?
    ensures ParseNamespace(s, host) == Match(Entity(kind, ReadId(quoted), host))
    ensures IsNamespace(kind) && s == kind + "." + quoted
  {
    var dot := IndexOf(s, '.');
    kind, quoted := s[..dot], s[dot + 1..];
    PrefixIsNamespace(s, dot);
    Around(s, dot);
    Associative(kind, ".", quoted);
  }

  lemma HostNamespaceIs(s: string)
    requires HostSpan(s) < |s| && s[HostSpan(s)] == '\\'
    ensures ParseHostNamespace(s) == ParseNamespace(s[HostSpan(s) + 1..], s[..HostSpan(s)])
  {
  }

  lemma NamespaceAfterHost(s: string, i: nat) returns (host: string, kind: string, quoted: string)
    requires i < |s| && s[i] == '\\' && ParseNamespace(s[i + 1..], s[..i]).Match?
    ensures ParseNamespace(s[i + 1..], s[..i]) == Match(Entity(kind, ReadId(quoted), host))
    ensures IsNamespace(kind) && s == WmiRest(host, kind, quoted)
  {
    host := s[..i];
    kind, quoted := NamespaceIsParsed(s[i + 1..], host);
    AroundBackslash(s, i, kind, quoted);
  }

  lemma HostNamespaceIsParsed(s: string) returns (host: string, kind: string, quoted: string)
    requires ParseHostNamespace(s).Match?
    ensures ParseHostNamespace(s) == Match(Entity(kind, ReadId(quoted), host))
    ensures IsNamespace(kind) && s == WmiRest(host, kind, quoted)
  {
    HostNamespaceIs(s);
    host, kind, quoted := NamespaceAfterHost(s, HostSpan(s));
  }

  lemma AroundBackslash(s: string, i: nat, kind: string, quoted: string)
    requires i < |s| && s[i] == '\\' && s[i + 1..] == kind + "." + quoted
    ensures s == WmiRest(s[..i], kind, quoted)
  {
    Around(s, i);
  }

  lemma BackslashesAreRead(x: string) returns (n: nat)
    requires ParseXidWMI(x).Match? && x != "" && x[0] == '\\'
    ensures 2 <= n <= 3 && Slashes(x, n)
    ensures ParseXidWMI(x) == ParseHostNamespace(x[n..])
  {
    assert WordSpan(x) == 0;
    n := if Slashes(x, 3) && ParseHostNamespace(x[3..]).Match? then 3 else 2;
  }

  lemma WmiIsParsed(x: string) returns (n: nat, quoted: string)
    requires ParseXidWMI(x).Match? && x != "" && x[0] == '\\'
    ensures
      var e := ParseXidWMI(x).entity;
      && 2 <= n <= 3 && Slashes(x, n)
      && x[n..] == WmiRest(e.host, e.kind, quoted) && e.id == Unquote(FirstLine(quoted)) && IsNamespace(e.kind)
  {
    n := BackslashesAreRead(x);
    var host, kind;
    host, kind, quoted := HostNamespaceIsParsed(x[n..]);
  }

  lemma BackslashIsNotWbem(x: string)
    requires x != "" && x[0] == '\\'
    ensures ParseXidWBEM(x).NoMatch?
  {
  }

  // In clear: a moniker comes back if and only if its namespace has a word, then a backslash.
  lemma WmiRoundTrip(host: string, namespac: string, classNam: string, id: string)
    requires IsWmiHost(host) && IsId(id) && '%' !in namespac && '%' !in classNam
    ensures ParseXid(BuildWmiMoniker(host, namespac, classNam) + id) == Entity(namespac + ":" + classNam, id, host) <==>
      IsNamespace(namespac) && '.' !in classNam
  {
    var kind := namespac + ":" + classNam;
    var rest := WmiRest(host, kind, id);
    var x := "\\\\" + rest;
    WmiMonikerIs(host, namespac, classNam, id);
    ClearIsParsed(host, kind, id);
    KindOfNamespace(namespac, classNam);
    if IsNamespace(kind) {
      ParseXidWMIOfPrint(host, namespac, classNam, id, false);
    } else if ParseXidWMI(x).Match? {
      var n, quoted := WmiIsParsed(x);
    }
  }

  lemma WmiHasNoPercent(host: string, kind: string, id: string)
    requires (forall k :: 0 <= k < |host| ==> IsHostChar(host[k])) && '%' !in kind && '%' !in id
    ensures '%' !in "\\\\" + WmiRest(host, kind, id)
  {
    assert '%' !in host;
    assert forall c :: c in WmiRest(host, kind, id) ==> c in host || c == '\\' || c in kind || c == '.' || c in id;
  }

  // ---- what the encoding adds ----

  lemma {:induction false} DoubleLCounts(s: string, c: char)
    requires c != '\\'
    ensures multiset(DoubleL(s))[c] == multiset(s)[c]
  {
    if s != "" {
      if "\\L" <= s {
        DoubleLCounts(s[2..], c);
        StartIs("\\L", s);
        OneLOnly(c);
        SameCount("\\L", "\\\\L", s[2..], DoubleL(s[2..]), c);
      } else {
        DoubleLCounts(s[1..], c);
        StartIs([s[0]], s);
        SameCount([s[0]], [s[0]], s[1..], DoubleL(s[1..]), c);
      }
    }
  }

  lemma StartIs(p: string, s: string)
    requires p <= s
    ensures s == p + s[|p|..]
  {
  }

  lemma OneLOnly(c: char)
    requires c != '\\'
    ensures multiset("\\L")[c] == multiset("\\\\L")[c]
  {
    assert "\\\\L" == "\\" + "\\L";
    assert multiset("\\")[c] == 0;
  }

  lemma SameCount(a: string, b: string, s: string, t: string, c: char)
    requires multiset(a)[c] == multiset(b)[c] && multiset(s)[c] == multiset(t)[c]
    ensures multiset(a + s)[c] == multiset(b + t)[c]
  {
  }

  // It adds something if and only if a backslash is before an "L".
  lemma {:induction false} DoubleLGrows(s: string)
    ensures |DoubleL(s)| >= |s|
    ensures |DoubleL(s)| == |s| <==> NoSlashL(s)
  {
    if s != "" {
      if "\\L" <= s {
        DoubleLGrows(s[2..]);
      } else {
        DoubleLGrows(s[1..]);
      }
    }
  }

  // The same text but its backslashes, hence the same id.
  lemma SameId(m: string, before: string, id: string, x: string, others: string, quoted: string)
    requires IsId(id) && m == before + id && x == others + quoted
    requires forall c :: c == '%' || c == '\n' ==> multiset(x)[c] == multiset(m)[c] && multiset(others)[c] == multiset(before)[c]
    ensures Unquote(FirstLine(quoted)) == quoted
  {
    assert multiset(m)['%'] == multiset(before)['%'] + multiset(id)['%'];
    assert multiset(m)['\n'] == multiset(before)['\n'] + multiset(id)['\n'];
    assert multiset(quoted)['%'] == 0 && multiset(quoted)['\n'] == 0;
    OneLine(quoted);
    UnquotePlain(quoted);
  }

  lemma WmiSameId(host: string, kind: string, id: string, x: string, n: nat, quoted: string)
    requires IsId(id) && x == DoubleL("\\\\" + WmiRest(host, kind, id))
    requires Slashes(x, n) && x[n..] == WmiRest(host, kind, quoted)
    ensures Unquote(FirstLine(quoted)) == quoted
  {
    var m, p := "\\\\" + WmiRest(host, kind, id), host + ("\\" + (kind + "."));
    WmiRestIs(host, kind, id);
    WmiRestIs(host, kind, quoted);
    Associative("\\\\", p, id);
    assert x == x[..n] + (p + quoted);
    Associative(x[..n], p, quoted);
    SameMarks(m, x, "\\\\", x[..n], p);
    SameId(m, "\\\\" + p, id, x, x[..n] + p, quoted);
  }

  lemma SameMarks(m: string, x: string, a: string, b: string, p: string)
    requires x == DoubleL(m) && (forall k :: 0 <= k < |a| ==> a[k] == '\\') && (forall k :: 0 <= k < |b| ==> b[k] == '\\')
    ensures forall c :: c == '%' || c == '\n' ==> multiset(x)[c] == multiset(m)[c] && multiset(b + p)[c] == multiset(a + p)[c]
  {
    DoubleLCounts(m, '%');
    DoubleLCounts(m, '\n');
    OnlyBackslashes(a);
    OnlyBackslashes(b);
  }

  lemma WmiRestIs(host: string, kind: string, id: string)
    ensures WmiRest(host, kind, id) == host + ("\\" + (kind + ".")) + id
  {
    Associative("\\", kind + ".", id);
    Associative(host, "\\" + (kind + "."), id);
  }

  lemma OnlyBackslashes(s: string)
    requires forall k :: 0 <= k < |s| ==> s[k] == '\\'
    ensures multiset(s)['%'] == 0 && multiset(s)['\n'] == 0
  {
    assert '%' !in s && '\n' !in s;
  }

  // Encoded: it comes back if and only if, besides, no other backslash was doubled. The first ones may be tripled.
  lemma WmiEncodedRoundTrip(host: string, namespac: string, classNam: string, id: string)
    requires IsWmiHost(host) && IsId(id) && IsBytes(BuildWmiMoniker(host, namespac, classNam) + id)
    ensures
      var m := BuildWmiMoniker(host, namespac, classNam) + id;
      ParseXid(EncodeUri(m)) == Entity(namespac + ":" + classNam, id, host) <==>
        IsNamespace(namespac) && '.' !in classNam && NoSlashL(m[2..])
  {
    var kind := namespac + ":" + classNam;
    var rest := WmiRest(host, kind, id);
    var m := "\\\\" + rest;
    WmiMonikerIs(host, namespac, classNam, id);
    assert m[2..] == rest && rest[0] == host[0];
    EncodedIsParsed(m);
    KindOfNamespace(namespac, classNam);
    if IsNamespace(kind) && NoSlashL(rest) {
      DoubleLOfMoniker(rest);
      ParseXidWMIOfPrint(host, namespac, classNam, id, rest[0] == 'L');
    } else if ParseXidWMI(DoubleL(m)) == Match(Entity(kind, id, host)) {
      var n, quoted := WmiIsParsed(DoubleL(m));
      WmiSameId(host, kind, id, DoubleL(m), n, quoted);
      NothingElseDoubled(rest, n);
    }
  }

  // What is parsed after decoding: only a WMI moniker starts with a backslash.
  lemma EncodedIsParsed(m: string)
    requires IsBytes(m) && |m| >= 2 && m[0] == '\\' && m[1] != 'L'
    ensures DoubleL(m) != "" && DoubleL(m)[0] == '\\'
    ensures ParseXid(EncodeUri(m)) ==
      if ParseXidWMI(DoubleL(m)).Match? then ParseXidWMI(DoubleL(m)).entity else Entity("", "", "")
  {
    var x := DoubleL(m);
    assert x == [m[0]] + DoubleL(m[1..]);
    DoubleLIsBytes(m);
    EncodedBackslashIsNotLocal(x);
    UnquoteQuote(x);
    BackslashIsNotWbem(x);
  }

  lemma NothingElseDoubled(rest: string, n: nat)
    requires rest != "" && rest[0] != '\\' && 2 <= n <= 3
    requires
      var x := DoubleL("\\\\" + rest);
      Slashes(x, n) && |x[n..]| == |rest|
    ensures NoSlashL(rest)
  {
    var m, t := "\\\\" + rest, "\\" + rest;
    assert m[1..] == t && m[1] == '\\' && t[1] == rest[0] && t[1..] == rest && t[2..] == rest[1..];
    assert DoubleL(m) == ['\\'] + DoubleL(t);
    DoubleLStep(t);
    if rest[0] == 'L' {
      DoubleLGrows(rest[1..]);
    } else {
      DoubleLGrows(rest);
      DoubleLHead(rest);
      assert DoubleL(m)[2] == DoubleL(rest)[0];
    }
  }

  lemma DoubleLHead(s: string)
    requires s != ""
    ensures DoubleL(s) != "" && DoubleL(s)[0] == s[0]
  {
  }

  // ---- the local machine: an empty host ----

  // What follows the first word of a namespace and its backslash.
  function Below(s: string): string
    requires IsNamespace(s)
  {
    s[WordSpan(s) + 1..]
  }

  lemma BelowKind(namespac: string, classNam: string)
    requires IsNamespace(namespac) && '.' !in classNam
    ensures IsNamespace(namespac + ":" + classNam)
    ensures IsNamespace(Below(namespac + ":" + classNam)) <==> IsNamespace(Below(namespac))
  {
    var kind, i := namespac + ":" + classNam, WordSpan(namespac);
    KindOfNamespace(namespac, classNam);
    Associative(namespac, ":", classNam);
    WordSpanPrefix(namespac, ":" + classNam);
    assert kind[i + 1..] == namespac[i + 1..] + ":" + classNam;
    assert '.' !in namespac[i + 1..];
    KindOfNamespace(namespac[i + 1..], classNam);
  }

  // With three backslashes, the first word is taken for a host when what is below is a namespace too.
  lemma ParseLocalWmi(kind: string, id: string)
    requires IsNamespace(kind) && IsId(id)
    ensures ParseXidWMI("\\\\\\" + (kind + "." + id)) == Match(Entity(kind, id, "")) <==> !IsNamespace(Below(kind))
  {
    var rest, i := kind + "." + id, WordSpan(kind);
    var xid := "\\\\\\" + rest;
    SlashesBefore("\\\\\\", rest);
    assert xid[2..] == "\\" + rest;
    ParseHostNamespaceOfWord(kind, id);
    ParseHostNamespaceOfSlash(rest);
    ParseNamespaceIff(kind, id, "");
    ParseAfterSlashes(xid, if IsNamespace(Below(kind)) then 3 else 2);
  }

  lemma ParseHostNamespaceOfWord(kind: string, id: string)
    requires IsNamespace(kind) && IsId(id)
    ensures
      var host := kind[..WordSpan(kind)];
      host != "" && ParseHostNamespace(kind + "." + id) == if IsNamespace(Below(kind)) then Match(Entity(Below(kind), id, host)) else NoMatch
  {
    var i, rest := WordSpan(kind), kind + "." + id;
    assert rest == kind[..i] + (kind[i..] + ("." + id));
    HostSpanAt(kind[..i], kind[i..] + ("." + id));
    assert rest[..i] == kind[..i] && rest[i] == '\\' && rest[i + 1..] == Below(kind) + "." + id;
    ParseNamespaceIff(Below(kind), id, kind[..i]);
  }

  lemma ParseHostNamespaceOfSlash(rest: string)
    ensures ParseHostNamespace("\\" + rest) == ParseNamespace(rest, "")
  {
    var s := "\\" + rest;
    assert HostSpan(s) == 0 && s[1..] == rest && s[..0] == "";
  }

  // In clear, the namespace must not have two levels.
  lemma WmiLocalRoundTrip(namespac: string, classNam: string, id: string)
    requires IsId(id) && '%' !in namespac && '%' !in classNam
    ensures ParseXid(BuildWmiMoniker("", namespac, classNam) + id) == Entity(namespac + ":" + classNam, id, "") <==>
      IsNamespace(namespac) && '.' !in classNam && !IsNamespace(Below(namespac))
  {
    var kind := namespac + ":" + classNam;
    LocalMoniker(namespac, classNam, id);
    var rest := kind + "." + id;
    var x := "\\\\" + ("\\" + rest);
    ClearIsParsed("", kind, id);
    LocalIff(namespac, classNam, id, x);
  }

  lemma LocalMoniker(namespac: string, classNam: string, id: string)
    ensures
      var rest := namespac + ":" + classNam + "." + id;
      && BuildWmiMoniker("", namespac, classNam) + id == "\\\\" + ("\\" + rest)
      && WmiRest("", namespac + ":" + classNam, id) == "\\" + rest && "\\\\\\" + rest == "\\\\" + ("\\" + rest)
  {
    WmiMonikerIs("", namespac, classNam, id);
    Associative("\\\\", "\\", namespac + ":" + classNam + "." + id);
  }

  lemma LocalIff(namespac: string, classNam: string, id: string, x: string)
    requires IsId(id) && x == "\\\\" + WmiRest("", namespac + ":" + classNam, id)
    ensures ParseXidWMI(x) == Match(Entity(namespac + ":" + classNam, id, "")) <==>
      IsNamespace(namespac) && '.' !in classNam && !IsNamespace(Below(namespac))
  {
    var kind := namespac + ":" + classNam;
    KindOfNamespace(namespac, classNam);
    LocalMoniker(namespac, classNam, id);
    if IsNamespace(kind) {
      BelowKind(namespac, classNam);
      ParseLocalWmi(kind, id);
    } else if ParseXidWMI(x).Match? {
      var n, quoted := WmiIsParsed(x);
    }
  }

  // Encoded, one more backslash is added before an "L": the first word is then not taken for a host.
  lemma WmiLocalEncodedRoundTrip(namespac: string, classNam: string, id: string)
    requires IsId(id) && IsBytes(BuildWmiMoniker("", namespac, classNam) + id)
    ensures
      var m := BuildWmiMoniker("", namespac, classNam) + id;
      ParseXid(EncodeUri(m)) == Entity(namespac + ":" + classNam, id, "") <==>
        && IsNamespace(namespac) && '.' !in classNam && NoSlashL(m[3..])
        && (namespac[0] == 'L' || !IsNamespace(Below(namespac)))
  {
    var kind := namespac + ":" + classNam;
    var rest := kind + "." + id;
    var m := "\\\\" + ("\\" + rest);
    LocalMoniker(namespac, classNam, id);
    assert m[3..] == rest;
    EncodedIsParsed(m);
    KindOfNamespace(namespac, classNam);
    if IsNamespace(kind) {
      assert rest[0] == kind[0] == namespac[0];
      if NoSlashL(rest) {
        LocalEncodedIff(namespac, classNam, id);
      } else if ParseXidWMI(DoubleL(m)) == Match(Entity(kind, id, "")) {
        var n, quoted := WmiIsParsed(DoubleL(m));
        WmiSameId("", kind, id, DoubleL(m), n, quoted);
        NothingElseDoubledLocal(rest, n);
      }
    } else if ParseXidWMI(DoubleL(m)) == Match(Entity(kind, id, "")) {
      var n, quoted := WmiIsParsed(DoubleL(m));
    }
  }

  lemma LocalEncodedIff(namespac: string, classNam: string, id: string)
    requires IsId(id) && IsNamespace(namespac) && '.' !in classNam && NoSlashL(namespac + ":" + classNam + "." + id)
    ensures
      var kind := namespac + ":" + classNam;
      ParseXidWMI(DoubleL("\\\\" + ("\\" + (kind + "." + id)))) == Match(Entity(kind, id, "")) <==>
        namespac[0] == 'L' || !IsNamespace(Below(namespac))
  {
    var kind := namespac + ":" + classNam;
    var rest := kind + "." + id;
    assert rest[0] == namespac[0];
    DoubleLOfLocal(rest);
    if rest[0] == 'L' {
      KindOfNamespace(namespac, classNam);
      FourBackslashes(kind, id);
    } else {
      LocalMoniker(namespac, classNam, id);
      LocalIff(namespac, classNam, id, "\\\\" + ("\\" + rest));
    }
  }

  lemma FourBackslashes(kind: string, id: string)
    requires IsNamespace(kind) && IsId(id)
    ensures ParseXidWMI("\\\\\\" + ("\\" + (kind + "." + id))) == Match(Entity(kind, id, ""))
  {
    ParseNamespaceIff(kind, id, "");
    ParseHostNamespaceOfSlash(kind + "." + id);
    ThreeAreSkipped("\\" + (kind + "." + id));
  }

  lemma ThreeAreSkipped(rest: string)
    requires ParseHostNamespace(rest).Match?
    ensures ParseXidWMI("\\\\\\" + rest) == ParseHostNamespace(rest)
  {
    var p: string := "\\\\\\";
    SlashesBefore(p, rest);
    ParseAfterThree(p + rest, rest);
  }

  lemma ParseAfterThree(xid: string, rest: string)
    requires Slashes(xid, 3) && xid[3..] == rest && ParseHostNamespace(rest).Match?
    ensures ParseXidWMI(xid) == ParseHostNamespace(rest)
  {
  }

  lemma DoubleLOfLocal(rest: string)
    requires rest != "" && NoSlashL(rest)
    ensures DoubleL("\\\\" + ("\\" + rest)) == (if rest[0] == 'L' then "\\\\\\" else "\\\\") + ("\\" + rest)
  {
    var s, t := "\\\\" + ("\\" + rest), "\\\\" + rest;
    assert s[0] == '\\' && s[1] == '\\' && s[1..] == t;
    assert DoubleL(s) == ['\\'] + DoubleL(t);
    DoubleLOfMoniker(rest);
  }

  lemma NothingElseDoubledLocal(rest: string, n: nat)
    requires rest != "" && rest[0] != '\\' && 2 <= n <= 3
    requires
      var x := DoubleL("\\\\" + ("\\" + rest));
      Slashes(x, n) && |x| == n + 1 + |rest| && x[n] == '\\'
    ensures NoSlashL(rest)
  {
    var s, m, t := "\\\\" + ("\\" + rest), "\\\\" + rest, "\\" + rest;
    assert s[0] == '\\' && s[1] == '\\' && s[1..] == m;
    assert m[1..] == t && m[1] == '\\' && t[1] == rest[0] && t[1..] == rest && t[2..] == rest[1..];
    assert DoubleL(s) == ['\\'] + DoubleL(m) && DoubleL(m) == ['\\'] + DoubleL(t);
    DoubleLStep(t);
    if rest[0] == 'L' {
      DoubleLGrows(rest[1..]);
    } else {
      DoubleLGrows(rest);
      DoubleLHead(rest);
      assert DoubleL(s)[3] == DoubleL(rest)[0];
    }
  }

  lemma DoubleLOfMoniker(rest: string)
    requires rest != "" && NoSlashL(rest)
    ensures DoubleL("\\\\" + rest) == (if rest[0] == 'L' then "\\\\\\" else "\\\\") + rest
  {
    DoubleLOfTwo(rest);
    DoubleLOfBackslash(rest);
    OneMoreBackslash(rest);
  }

  lemma DoubleLOfTwo(rest: string)
    ensures DoubleL("\\\\" + rest) == "\\" + DoubleL("\\" + rest)
  {
    var s, t := "\\\\" + rest, "\\" + rest;
    assert s[0] == '\\' && s[1] == '\\' && s[1..] == t;
  }

  lemma OneMoreBackslash(rest: string)
    ensures "\\" + ("\\" + rest) == "\\\\" + rest
    ensures "\\" + ("\\\\" + rest) == "\\\\\\" + rest
  {
    Associative("\\", "\\", rest);
    Associative("\\", "\\\\", rest);
    assert "\\" + "\\\\" == "\\\\\\" && "\\" + "\\" == "\\\\";
  }

  lemma DoubleLOfBackslash(rest: string)
    requires rest != "" && NoSlashL(rest)
    ensures DoubleL("\\" + rest) == (if rest[0] == 'L' then "\\\\" else "\\") + rest
  {
    var t := "\\" + rest;
    assert t[1..] == rest && t[2..] == rest[1..];
    DoubleLStep(t);
    if rest[0] == 'L' {
      DoubleLOfL(rest);
    } else {
      DoubleLPlain(rest);
    }
  }

  lemma DoubleLOfL(rest: string)
    requires rest != "" && rest[0] == 'L' && NoSlashL(rest)
    ensures "\\\\L" + DoubleL(rest[1..]) == "\\\\" + rest
  {
    DoubleLPlain(rest[1..]);
    assert rest == ['L'] + rest[1..] && "\\\\L" == "\\\\" + "L";
    Associative("\\\\", "L", rest[1..]);
  }

  lemma DoubleLStep(t: string)
    requires |t| >= 2 && t[0] == '\\'
    ensures DoubleL(t) == if t[1] == 'L' then "\\\\L" + DoubleL(t[2..]) else "\\" + DoubleL(t[1..])
  {
  }

  // ---- WBEM ----

  ghost predicate IsWbemHost(host: string)
  {
    HttpLength(host) > 0 && '/' !in host[HttpLength(host)..]
  }

  function WbemKind(namespac: string, classNam: string): string
  {
    if namespac != "" then namespac + ":" + classNam else classNam
  }

  lemma WbemMonikerIs(host: string, namespac: string, classNam: string, id: string)
    ensures BuildWbemMoniker(host, namespac, classNam) + id == host + ("/" + (WbemKind(namespac, classNam) + "." + id))
  {
  }

  lemma ParseXidWBEMOfPrint(host: string, kind: string, id: string)
    requires IsWbemHost(host) && '.' !in kind && IsId(id)
    ensures ParseXidWBEM(host + ("/" + (kind + "." + id))) == Match(Entity(kind, id, host))
  {
    var rest := kind + "." + id;
    WbemHostOfPrint(host, rest);
    assert rest == kind + ['.'] + id;
    IndexOfAt(kind, '.', id);
    assert rest[..|kind|] == kind && rest[|kind| + 1..] == id;
    OneLine(id);
    UnquotePlain(id);
  }

  lemma WbemHostOfPrint(host: string, rest: string)
    requires IsWbemHost(host)
    ensures ParseXidWBEM(host + ("/" + rest)) == Match(ParseWbemPath(rest, host))
  {
    var xid := host + ("/" + rest);
    HttpLengthOf(host, "/" + rest);
    HostIsRead(host, rest, HttpLength(host));
    AroundSlash(host, rest);
    WbemParts(xid, host, rest);
  }

  lemma WbemParts(xid: string, host: string, rest: string)
    requires |host| < |xid| && xid[..|host|] == host && xid[|host| + 1..] == rest
    ensures ParseWbemHost(xid, |host|) == Match(ParseWbemPath(rest, host))
  {
  }

  lemma HostIsRead(host: string, rest: string, n: nat)
    requires n <= |host| && '/' !in host[n..]
    ensures
      var xid := host + ("/" + rest);
      n + IndexOf(xid[n..], '/') == |host|
  {
    var xid := host + ("/" + rest);
    assert xid[n..] == host[n..] + (['/'] + rest);
    Cut(host[n..], '/', rest);
  }

  lemma AroundSlash(host: string, rest: string)
    ensures var xid := host + ("/" + rest); xid[..|host|] == host && xid[|host| + 1..] == rest
  {
  }

  lemma HttpLengthOf(host: string, rest: string)
    requires HttpLength(host) > 0
    ensures HttpLength(host + rest) == HttpLength(host)
  {
    var s, n := host + rest, HttpLength(host);
    assert s[..n] == host[..n];
    assert n == 7 ==> s[4] == ':';
  }

  lemma HttpSpans(xid: string)
    requires HttpLength(xid) > 0
    ensures var n := WordSpan(xid); TypeSpan(xid) == n && 4 <= n < |xid| && xid[n] == ':' && xid[0] == 'h'
    ensures forall k :: 0 <= k < WordSpan(xid) ==> IsHostChar(xid[k])
  {
    var n := if "https://" <= xid then 5 else 4;
    HttpWord(xid);
    assert xid == xid[..n] + xid[n..];
    TypeSpanAt(xid[..n], xid[n..]);
    WordSpanAt(xid[..n], xid[n..]);
  }

  // "http" or "https", then a colon.
  lemma HttpWord(xid: string)
    requires HttpLength(xid) > 0
    ensures
      var n := if "https://" <= xid then 5 else 4;
      n < |xid| && xid[n] == ':' && xid[0] == 'h' && (forall k :: 0 <= k < n ==> IsWord(xid[k]))
  {
    if "https://" <= xid {
      StartsWith("https://", xid);
    } else {
      StartsWith("http://", xid);
    }
  }

  lemma StartsWith(p: string, s: string)
    requires p <= s
    ensures forall k :: 0 <= k < |p| ==> s[k] == p[k]
  {
  }

  // The colon after "http" refuses the other grammars.
  lemma HttpIsNotLocal(xid: string)
    requires HttpLength(xid) > 0
    ensures ParseXidLocal(xid).NoMatch? && ParseXidWMI(xid).NoMatch?
  {
    HttpSpans(xid);
    var n := WordSpan(xid);
    var at := IndexOf(xid, '@');
    if at < |xid| {
      assert at > n;
      var h := xid[..at];
      assert h[n] == ':' && h[n] in h;
      if IsLocalHost(h) {
        HostHasNo(h, ':');
      }
    }
  }

  lemma EncodedHttpIsNotLocal(xid: string)
    requires IsBytes(xid) && HttpLength(xid) > 0
    ensures ParseXidLocal(Quote(xid)).NoMatch?
  {
    var n := if "https://" <= xid then 5 else 4;
    var a, b := xid[..n], xid[n..];
    HttpWord(xid);
    assert xid == a + b;
    QuoteSafe(a, b);
    assert Quote(b)[0] == '%';
    TypeSpanAt(a, Quote(b));
    EncodedHasNoHost(xid);
  }

  lemma {:induction false} QuoteSafe(a: string, b: string)
    requires IsBytes(a + b) && forall k :: 0 <= k < |a| ==> IsSafe(a[k])
    ensures IsBytes(b) && Quote(a + b) == a + Quote(b)
  {
    assert forall k :: 0 <= k < |b| ==> b[k] == (a + b)[|a| + k];
    if a == "" {
      assert a + b == b;
    } else {
      assert (a + b)[1..] == a[1..] + b;
      assert a == [a[0]] + a[1..];
      QuoteSafe(a[1..], b);
    }
  }

  lemma WbemPathIsParsed(rest: string, host: string) returns (more: string)
    ensures
      var e := ParseWbemPath(rest, host);
      && e.host == host && '.' !in e.kind && rest == e.kind + more
      && (more == "" || (more[0] == '.' && e.id == Unquote(FirstLine(more[1..]))))
  {
    var dot := IndexOf(rest, '.');
    more := rest[dot..];
    assert rest == rest[..dot] + more;
    if dot < |rest| {
      assert more[1..] == rest[dot + 1..] && more[0] == '.';
    }
  }

  // What is parsed is in the text, in the same order.
  lemma WbemIsParsed(xid: string) returns (more: string)
    requires ParseXidWBEM(xid).Match?
    ensures
      var e := ParseXidWBEM(xid).entity;
      && '.' !in e.kind && xid == e.host + ("/" + (e.kind + more))
      && (more == "" || (more[0] == '.' && e.id == Unquote(FirstLine(more[1..]))))
  {
    var n := HttpLength(xid);
    var slash := n + IndexOf(xid[n..], '/');
    assert xid[slash] == xid[n..][slash - n];
    var rest, host := xid[slash + 1..], xid[..slash];
    more := WbemPathIsParsed(rest, host);
    AroundSlashIs(xid, slash, ParseWbemPath(rest, host).kind, more);
  }

  lemma AroundSlashIs(xid: string, slash: nat, kind: string, more: string)
    requires slash < |xid| && xid[slash] == '/' && xid[slash + 1..] == kind + more
    ensures xid == xid[..slash] + ("/" + (kind + more))
  {
    Around(xid, slash);
  }

  // In clear: a WBEM moniker comes back if and only if its namespace and class have no dot.
  lemma WbemRoundTrip(host: string, namespac: string, classNam: string, id: string)
    requires IsWbemHost(host) && IsId(id)
    requires '%' !in host && '%' !in namespac && '%' !in classNam
    ensures ParseXid(BuildWbemMoniker(host, namespac, classNam) + id) == Entity(WbemKind(namespac, classNam), id, host) <==>
      '.' !in WbemKind(namespac, classNam)
  {
    var kind := WbemKind(namespac, classNam);
    var xid := host + ("/" + (kind + "." + id));
    WbemMonikerIs(host, namespac, classNam, id);
    HttpLengthOf(host, "/" + (kind + "." + id));
    HttpIsNotLocal(xid);
    WbemHasNoPercent(host, kind, id);
    UnquotePlain(xid);
    if '.' !in kind {
      ParseXidWBEMOfPrint(host, kind, id);
    } else {
      var more := WbemMatches(host, kind + "." + id);
    }
  }

  lemma WbemHasNoPercent(host: string, kind: string, id: string)
    requires '%' !in host && '%' !in kind && '%' !in id
    ensures '%' !in host + ("/" + (kind + "." + id))
  {
    assert forall c :: c in host + ("/" + (kind + "." + id)) ==> c in host || c == '/' || c in kind || c == '.' || c in id;
  }

  lemma WbemMatches(host: string, rest: string) returns (more: string)
    requires IsWbemHost(host)
    ensures ParseXidWBEM(host + ("/" + rest)).Match? && '.' !in ParseXidWBEM(host + ("/" + rest)).entity.kind
  {
    WbemHostOfPrint(host, rest);
    more := WbemIsParsed(host + ("/" + rest));
  }

  // Encoded: if and only if, besides, no backslash was doubled.
  lemma WbemEncodedRoundTrip(host: string, namespac: string, classNam: string, id: string)
    requires IsWbemHost(host) && IsId(id) && IsBytes(BuildWbemMoniker(host, namespac, classNam) + id)
    ensures
      var m := BuildWbemMoniker(host, namespac, classNam) + id;
      ParseXid(EncodeUri(m)) == Entity(WbemKind(namespac, classNam), id, host) <==>
        '.' !in WbemKind(namespac, classNam) && NoSlashL(m)
  {
    var kind := WbemKind(namespac, classNam);
    var m := host + ("/" + (kind + "." + id));
    WbemMonikerIs(host, namespac, classNam, id);
    HttpLengthOf(host, "/" + (kind + "." + id));
    EncodedHttpIsParsed(m);
    if NoSlashL(m) {
      DoubleLPlain(m);
    }
    if '.' !in kind && NoSlashL(m) {
      ParseXidWBEMOfPrint(host, kind, id);
    } else if ParseXidWBEM(DoubleL(m)) == Match(Entity(kind, id, host)) {
      WbemSameText(host, kind, id);
    }
  }

  lemma EncodedHttpIsParsed(m: string)
    requires IsBytes(m) && HttpLength(m) > 0
    ensures ParseXid(EncodeUri(m)) ==
      if ParseXidWBEM(DoubleL(m)).Match? then ParseXidWBEM(DoubleL(m)).entity else Entity("", "", "")
  {
    var x := DoubleL(m);
    DoubleLIsBytes(m);
    HttpIsKept(m);
    EncodedHttpIsNotLocal(x);
    UnquoteQuote(x);
    HttpIsNotLocal(x);
  }

  lemma HttpIsKept(m: string)
    requires HttpLength(m) > 0
    ensures HttpLength(DoubleL(m)) > 0
  {
    var p := if "https://" <= m then "https://" else "http://";
    assert '\\' !in p && m == p + m[|p|..];
    DoubleLAfter(p, m[|p|..]);
    assert p <= DoubleL(m);
  }

  lemma {:induction false} DoubleLAfter(a: string, b: string)
    requires '\\' !in a
    ensures DoubleL(a + b) == a + DoubleL(b)
  {
    if a == "" {
      assert a + b == b;
    } else {
      assert (a + b)[0] == a[0] && (a + b)[1..] == a[1..] + b && a[0] in a && forall c :: c in a[1..] ==> c in a;
      DoubleLAfter(a[1..], b);
    }
  }

  // A text which gives the same parts after the encoding was not changed.
  lemma WbemSameText(host: string, kind: string, id: string)
    requires IsId(id) && ParseXidWBEM(DoubleL(host + ("/" + (kind + "." + id)))) == Match(Entity(kind, id, host))
    ensures '.' !in kind && NoSlashL(host + ("/" + (kind + "." + id)))
  {
    var m := host + ("/" + (kind + "." + id));
    var more := WbemIsParsed(DoubleL(m));
    WbemSameLength(host, kind, id, more);
  }

  lemma WbemSameLength(host: string, kind: string, id: string, more: string)
    requires IsId(id) && DoubleL(host + ("/" + (kind + "." + id))) == host + ("/" + (kind + more))
    requires more == "" || (more[0] == '.' && id == Unquote(FirstLine(more[1..])))
    ensures NoSlashL(host + ("/" + (kind + "." + id)))
  {
    var m := host + ("/" + (kind + "." + id));
    DoubleLGrows(m);
    assert |DoubleL(m)| == |host| + 1 + |kind| + |more|;
    assert more != "";
    assert more == "." + more[1..];
    WbemSameId(host, kind, id, DoubleL(m), more[1..]);
  }

  lemma WbemSameId(host: string, kind: string, id: string, x: string, quoted: string)
    requires IsId(id) && x == DoubleL(host + ("/" + (kind + "." + id))) && x == host + ("/" + (kind + ("." + quoted)))
    ensures Unquote(FirstLine(quoted)) == quoted
  {
    var m, p := host + ("/" + (kind + "." + id)), host + ("/" + (kind + "."));
    Associative("/", kind + ".", id);
    Associative(host, "/" + (kind + "."), id);
    Associative(kind, ".", quoted);
    Associative("/", kind + ".", quoted);
    Associative(host, "/" + (kind + "."), quoted);
    DoubleLCounts(m, '%');
    DoubleLCounts(m, '\n');
    SameId(m, p, id, x, p, quoted);
  }

  // ---- some identifiers which do not come back ----

  // The moniker of all the namespaces of a host, or of "root": nothing is parsed.
  lemma WmiNothingIsParsed(host: string, namespac: string, classNam: string, id: string)
    requires IsWmiHost(host) && IsId(id) && '%' !in namespac && '%' !in classNam
    requires '.' !in namespac && '.' !in classNam && !IsNamespace(namespac)
    ensures ParseXid(BuildWmiMoniker(host, namespac, classNam) + id) == Entity("", "", "")
  {
    var kind := namespac + ":" + classNam;
    var rest := WmiRest(host, kind, id);
    WmiMonikerIs(host, namespac, classNam, id);
    ClearIsParsed(host, kind, id);
    KindOfNamespace(namespac, classNam);
    assert forall c :: c in kind <==> c in namespac || c == ':' || c in classNam;
    ParseNamespaceIff(kind, id, host);
    ParseHostNamespaceOfPrint(host, kind + "." + id);
    NothingAfterSlashes(rest);
  }

  lemma ClearIsParsed(host: string, kind: string, id: string)
    requires (forall k :: 0 <= k < |host| ==> IsHostChar(host[k])) && '%' !in kind && '%' !in id
    ensures
      var x := "\\\\" + WmiRest(host, kind, id);
      ParseXid(x) == if ParseXidWMI(x).Match? then ParseXidWMI(x).entity else Entity("", "", "")
  {
    var rest := WmiRest(host, kind, id);
    BackslashesAreNotLocal(rest);
    BackslashIsNotWbem("\\\\" + rest);
    WmiHasNoPercent(host, kind, id);
    UnquotePlain("\\\\" + rest);
  }

  lemma NothingAfterSlashes(rest: string)
    requires rest != "" && rest[0] != '\\' && ParseHostNamespace(rest).NoMatch?
    ensures ParseXidWMI("\\\\" + rest).NoMatch?
  {
    SlashesBefore("\\\\", rest);
    assert WordSpan("\\\\" + rest) == 0;
  }

  lemma AllNamespacesAreNotParsed(host: string)
    requires IsWmiHost(host)
    ensures ParseXid(BuildWmiMoniker(host, "", "")) == Entity("", "", "")
  {
    WmiNothingIsParsed(host, "", "", "");
    assert BuildWmiMoniker(host, "", "") + "" == BuildWmiMoniker(host, "", "");
  }

  // The namespace root\LDAP comes back with two backslashes.
  lemma LdapIsChanged(host: string, classNam: string, id: string)
    requires IsWmiHost(host) && host[0] != 'L' && IsId(id) && '.' !in classNam && '\\' !in classNam && '\\' !in id
    requires IsBytes(BuildWmiMoniker(host, "root\\LDAP", classNam) + id)
    ensures ParseXid(EncodeUri(BuildWmiMoniker(host, "root\\LDAP", classNam) + id)) == Entity("root\\\\LDAP:" + classNam, id, host)
  {
    var tail := "DAP:" + classNam + "." + id;
    LdapParts(host, classNam, id);
    EncodedIsParsed("\\\\" + (host + ("\\" + ("root" + ("\\L" + tail)))));
    assert '\\' !in tail;
    LevelIsDoubled(host, "root", tail);
    LdapIsRead(host, classNam, id);
  }

  lemma LdapIsRead(host: string, classNam: string, id: string)
    requires IsWmiHost(host) && IsId(id) && '.' !in classNam
    ensures ParseXidWMI("\\\\" + (host + ("\\" + ("root" + ("\\\\L" + ("DAP:" + classNam + "." + id)))))) ==
      Match(Entity("root\\\\LDAP:" + classNam, id, host))
  {
    LdapParts(host, classNam, id);
    assert WordSpan("root\\\\LDAP") == 4;
    ParseXidWMIOfPrint(host, "root\\\\LDAP", classNam, id, false);
  }

  lemma LdapParts(host: string, classNam: string, id: string)
    ensures
      var tail := "DAP:" + classNam + "." + id;
      && BuildWmiMoniker(host, "root\\LDAP", classNam) + id == "\\\\" + (host + ("\\" + ("root" + ("\\L" + tail))))
      && "\\\\" + (host + ("\\" + ("root\\\\LDAP" + ":" + classNam + "." + id))) == "\\\\" + (host + ("\\" + ("root" + ("\\\\L" + tail))))
      && "root\\\\LDAP" + ":" + classNam == "root\\\\LDAP:" + classNam
  {
    WmiMonikerIs(host, "root\\LDAP", classNam, id);
    var tail := "DAP:" + classNam + "." + id;
    assert "root\\LDAP" + ":" + classNam + "." + id == "root" + ("\\L" + tail);
    assert "root\\\\LDAP" + ":" + classNam + "." + id == "root" + ("\\\\L" + tail);
  }

  lemma LevelIsDoubled(host: string, word: string, tail: string)
    requires host != "" && host[0] != 'L' && word != "" && word[0] != 'L'
    requires '\\' !in host && '\\' !in word && '\\' !in tail
    ensures DoubleL("\\\\" + (host + ("\\" + (word + ("\\L" + tail))))) == "\\\\" + (host + ("\\" + (word + ("\\\\L" + tail))))
  {
    DoubleLOnce(tail);
    DoubleLAfter(word, "\\L" + tail);
    DoubleLBefore(word + ("\\L" + tail));
    DoubleLAfter(host, "\\" + (word + ("\\L" + tail)));
    TwoBackslashes(host + ("\\" + (word + ("\\L" + tail))));
  }

  lemma TwoBackslashes(rest: string)
    requires rest != "" && rest[0] != 'L'
    ensures DoubleL("\\\\" + rest) == "\\\\" + DoubleL(rest)
  {
    assert "\\" + "\\" == "\\\\";
    Associative("\\", "\\", rest);
    Associative("\\", "\\", DoubleL(rest));
    DoubleLBefore(rest);
    DoubleLBefore("\\" + rest);
  }

  lemma DoubleLBefore(t: string)
    requires t != "" && t[0] != 'L'
    ensures DoubleL("\\" + t) == "\\" + DoubleL(t)
  {
    assert ("\\" + t)[1] == t[0] && ("\\" + t)[1..] == t;
  }

  lemma DoubleLOnce(after: string)
    requires '\\' !in after
    ensures DoubleL("\\L" + after) == "\\\\L" + after
  {
    var t := "\\L" + after;
    assert "\\L" <= t && t[2..] == after;
    DoubleLAfter(after, "");
    assert after + "" == after;
  }

  // An id with a backslash before an "L", as in C:\Logs, comes back with two.
  lemma IdIsChanged(host: string, namespac: string, classNam: string, before: string, after: string)
    requires IsWbemHost(host) && '.' !in namespac && '.' !in classNam && IsId(before + "\\\\L" + after)
    requires '\\' !in host && '\\' !in namespac && '\\' !in classNam && '\\' !in before && '\\' !in after
    requires IsBytes(BuildWbemMoniker(host, namespac, classNam) + (before + "\\L" + after))
    ensures ParseXid(EncodeUri(BuildWbemMoniker(host, namespac, classNam) + (before + "\\L" + after))) ==
      Entity(WbemKind(namespac, classNam), before + "\\\\L" + after, host)
  {
    var kind, id := WbemKind(namespac, classNam), before + "\\L" + after;
    var m := host + ("/" + (kind + "." + id));
    WbemMonikerIs(host, namespac, classNam, id);
    HttpLengthOf(host, "/" + (kind + "." + id));
    EncodedHttpIsParsed(m);
    IdIsDoubled(host, kind, before, after);
    ParseXidWBEMOfPrint(host, kind, before + "\\\\L" + after);
  }

  lemma IdIsDoubled(host: string, kind: string, before: string, after: string)
    requires '\\' !in host && '\\' !in kind && '\\' !in before && '\\' !in after
    ensures DoubleL(host + ("/" + (kind + "." + (before + "\\L" + after)))) == host + ("/" + (kind + "." + (before + "\\\\L" + after)))
  {
    var p := host + ("/" + (kind + ("." + before)));
    assert '\\' !in p;
    IdParts(host, kind, before, "\\L" + after);
    IdParts(host, kind, before, "\\\\L" + after);
    Associative(before, "\\L", after);
    Associative(before, "\\\\L", after);
    DoubleLAfter(p, "\\L" + after);
    DoubleLOnce(after);
  }

  lemma IdParts(host: string, kind: string, before: string, more: string)
    ensures host + ("/" + (kind + "." + (before + more))) == host + ("/" + (kind + ("." + before))) + more
  {
    Associative(kind, ".", before + more);
    Associative(".", before, more);
    Associative(kind, "." + before, more);
    Associative("/", kind + ("." + before), more);
    Associative(host, "/" + (kind + ("." + before)), more);
  }
}
