/**
 * The index-name templates of the `migrate` and `experiment` commands. A name
 * such as `"{alias}_{date}"` is filled in with `str.format(alias=…, date=…)`:
 * `{alias}` and `{date}` are replaced, a doubled brace stands for one brace,
 * and any other brace is an error.
 */
module Template {
  import opened Wrappers

  /** One piece of a template: literal text, or one of the two fields. */
  datatype Piece = Text(text: string) | AliasField | DateField

  /** `p` in front of a formatted rest; an error stays an error. */
  function Prepend(p: string, rest: Option<string>): (r: Option<string>)
    ensures r.Some? <==> rest.Some?
    ensures r.Some? ==> r.value == p + rest.value
  {
    match rest
    case None => None
    case Some(s) => Some(p + s)
  }

  /**
   * `template.format(alias=alias, date=date)` over the modelled subset of the
   * format syntax: `None` for a lone brace, an unknown field, and everything
   * outside that subset (format specs and conversions among them).
   */
  function Format(template: string, alias: string, date: string): Option<string>
    decreases |template|
  {
    if template == [] then Some([])
    else if template[0] == '{' then
      if |template| >= 2 && template[1] == '{' then Prepend("{", Format(template[2..], alias, date))
      else if |template| >= 7 && template[..7] == "{alias}" then Prepend(alias, Format(template[7..], alias, date))
      else if |template| >= 6 && template[..6] == "{date}" then Prepend(date, Format(template[6..], alias, date))
      else None
    else if template[0] == '}' then
      if |template| >= 2 && template[1] == '}' then Prepend("}", Format(template[2..], alias, date))
      else None
    else Prepend([template[0]], Format(template[1..], alias, date))
  }

  /** Literal text written into a template: every brace doubled. */
  function Escape(text: string): (r: string)
    ensures |r| >= |text|
    decreases |text|
  {
    if text == [] then []
    else if text[0] == '{' || text[0] == '}' then [text[0], text[0]] + Escape(text[1..])
    else [text[0]] + Escape(text[1..])
  }

  /** The template text of a sequence of pieces. */
  function Source(pieces: seq<Piece>): string
    decreases |pieces|
  {
    if pieces == [] then []
    else
      (match pieces[0]
       case Text(t) => Escape(t)
       case AliasField => "{alias}"
       case DateField => "{date}")
      + Source(pieces[1..])
  }

  /** The name the pieces stand for once the fields are filled in. */
  function Render(pieces: seq<Piece>, alias: string, date: string): string
    decreases |pieces|
  {
    if pieces == [] then []
    else
      (match pieces[0]
       case Text(t) => t
       case AliasField => alias
       case DateField => date)
      + Render(pieces[1..], alias, date)
  }

  /** Text in front of text in front of a formatted rest. */
  lemma PrependTwice(a: string, b: string, rest: Option<string>)
    ensures Prepend(a, Prepend(b, rest)) == Prepend(a + b, rest)
  {
    if rest.Some? {
      assert a + (b + rest.value) == (a + b) + rest.value;
    }
  }

  /** A character that is not a brace stands for itself. */
  lemma FormatChar(c: char, tail: string, alias: string, date: string)
    requires c != '{' && c != '}'
    ensures Format([c] + tail, alias, date) == Prepend([c], Format(tail, alias, date))
  {
    assert ([c] + tail)[1..] == tail;
  }

  /** A doubled brace stands for one brace. */
  lemma FormatDoubled(c: char, tail: string, alias: string, date: string)
    requires c == '{' || c == '}'
    ensures Format([c, c] + tail, alias, date) == Prepend([c], Format(tail, alias, date))
  {
    var t := [c, c] + tail;
    assert t[0] == c && t[1] == c && t[2..] == tail;
  }

  /** The first character of escaped text formats back to itself. */
  lemma FormatEscapeHead(text: string, rest: string, alias: string, date: string)
    requires text != []
    ensures Format(Escape(text) + rest, alias, date) == Prepend([text[0]], Format(Escape(text[1..]) + rest, alias, date))
  {
    var c := text[0];
    var tail := Escape(text[1..]) + rest;
    if c == '{' || c == '}' {
      assert Escape(text) + rest == [c, c] + tail;
      FormatDoubled(c, tail, alias, date);
    } else {
      assert Escape(text) + rest == [c] + tail;
      FormatChar(c, tail, alias, date);
    }
  }

  /** One character of escaped text formats back to itself, given that the rest of the text does. */
  lemma FormatEscapeStep(text: string, rest: string, alias: string, date: string)
    requires text != []
    requires Format(Escape(text[1..]) + rest, alias, date) == Prepend(text[1..], Format(rest, alias, date))
    ensures Format(Escape(text) + rest, alias, date) == Prepend(text, Format(rest, alias, date))
  {
    FormatEscapeHead(text, rest, alias, date);
    PrependTwice([text[0]], text[1..], Format(rest, alias, date));
    assert [text[0]] + text[1..] == text;
  }

  /** Escaped text formats back to the text itself, whatever follows it. */
  lemma {:induction false} FormatEscape(text: string, rest: string, alias: string, date: string)
    ensures Format(Escape(text) + rest, alias, date) == Prepend(text, Format(rest, alias, date))
    decreases |text|
  {
    if text == [] {
      assert Escape(text) + rest == rest;
      match Format(rest, alias, date)
      case None =>
      case Some(r) => assert text + r == r;
    } else {
      FormatEscape(text[1..], rest, alias, date);
      FormatEscapeStep(text, rest, alias, date);
    }
  }

  /** A field formats to its value, whatever follows it. */
  lemma FormatField(field: string, value: string, rest: string, alias: string, date: string)
    requires (field == "{alias}" && value == alias) || (field == "{date}" && value == date)
    ensures Format(field + rest, alias, date) == Prepend(value, Format(rest, alias, date))
  {
    var t := field + rest;
    assert t[0] == '{' && t[1] != '{';
    if field == "{alias}" {
      assert t[..7] == "{alias}" && t[7..] == rest;
    } else {
      assert t[1] == 'd';
      assert t[..6] == "{date}" && t[6..] == rest;
    }
  }

  /**
   * Round trip: the template text of a sequence of pieces formats to the name
   * the pieces stand for, with `{alias}` replaced by the alias and `{date}` by
   * the date.
   */
  lemma {:induction false} FormatSource(pieces: seq<Piece>, alias: string, date: string)
    ensures Format(Source(pieces), alias, date) == Some(Render(pieces, alias, date))
    decreases |pieces|
  {
    if pieces != [] {
      var rest := Source(pieces[1..]);
      FormatSource(pieces[1..], alias, date);
      match pieces[0]
      case Text(t) => FormatEscape(t, rest, alias, date);
      case AliasField => FormatField("{alias}", alias, rest, alias, date);
      case DateField => FormatField("{date}", date, rest, alias, date);
    }
  }

  /** A name without braces is its own template: formatting leaves it as it is. */
  lemma {:induction false} FormatPlain(name: string, alias: string, date: string)
    requires forall i :: 0 <= i < |name| ==> name[i] != '{' && name[i] != '}'
    ensures Format(name, alias, date) == Some(name)
    decreases |name|
  {
    if name != [] {
      FormatPlain(name[1..], alias, date);
      assert [name[0]] + name[1..] == name;
    }
  }

  /** A closing brace that is not doubled is an error. */
  lemma FormatLoneClose(rest: string, alias: string, date: string)
    requires rest == [] || rest[0] != '}'
    ensures Format("}" + rest, alias, date) == None
  {
    var t := "}" + rest;
    assert t[0] == '}';
    if rest != [] {
      assert t[1] == rest[0];
    }
  }

  /** An opening brace followed by anything but a brace or the start of a known field is an error. */
  lemma FormatUnknownField(c: char, rest: string, alias: string, date: string)
    requires c != '{' && c != 'a' && c != 'd'
    ensures Format(['{', c] + rest, alias, date) == None
  {
    var t := ['{', c] + rest;
    assert t[0] == '{' && t[1] == c;
    assert |t| >= 7 ==> t[..7][1] == c;
    assert |t| >= 6 ==> t[..6][1] == c;
  }
}
