/** The static attribute taxonomy of the scouting dashboard: the six primary
    attributes of each playing position, the five attributes each tactical
    style needs, and the universe of attributes every saved profile carries.
    Attribute names are the dashboard's own (Portuguese) labels. */
module Taxonomy {

  /** An attribute is identified by its label, as the profile table's columns are. */
  type Attribute = string

  /** The playing positions, in the order the position table lists them. */
  datatype Position = Atacante | Zagueiro | MeioCampo | Lateral | Goleiro

  const Positions: seq<Position> := [Atacante, Zagueiro, MeioCampo, Lateral, Goleiro]

  /** The primary attributes suggested for a position, in display order. */
  function PositionAttributes(p: Position): seq<Attribute>
  {
    match p
    case Atacante => ["Finalização", "Velocidade", "Agilidade", "Controle de Bola", "Posicionamento", "Força"]
    case Zagueiro => ["Posicionamento", "Força", "Impulsão", "Cabeceio", "Divididas", "Desarme"]
    case MeioCampo => ["Visão", "Passe", "Controle de Bola", "Resistência", "Interceptação", "Agilidade"]
    case Lateral => ["Velocidade", "Cruzamento", "Resistência", "Desarme", "Drible", "Passe Curto"]
    case Goleiro => ["Reflexo", "Elasticidade", "Saída de Gol", "Posicionamento", "Jogo com os Pés", "Comunicação"]
  }

  /** The names added to the position lists when the attribute universe is built. */
  const Supplemental: seq<Attribute> :=
    ["Resistência", "Interceptação", "Divididas", "Passe Curto", "Drible", "Cruzamento"]

  /** The lists of the position table, in table order. */
  function PositionLists(ps: seq<Position>): (r: seq<seq<Attribute>>)
    ensures |r| == |ps|
    ensures forall i :: 0 <= i < |ps| ==> r[i] == PositionAttributes(ps[i])
  {
    seq(|ps|, i requires 0 <= i < |ps| => PositionAttributes(ps[i]))
  }

  /** The concatenation of a list of lists, in order. */
  function Flatten(lists: seq<seq<Attribute>>): (r: seq<Attribute>)
    ensures forall a :: a in r <==> exists i :: 0 <= i < |lists| && a in lists[i]
  {
    if lists == [] then []
    else
      var rest := Flatten(lists[1..]);
      assert forall i :: 1 <= i < |lists| ==> lists[i] == lists[1..][i - 1];
      lists[0] + rest
  }

  /** The set of elements of a list. */
  function Elements(s: seq<Attribute>): set<Attribute>
  {
    set a | a in s
  }

  /** Every attribute a profile carries: the union of all position lists and
      the supplemental names. Built from a set, so only membership is meaningful. */
  const AllAttributes: set<Attribute> := Elements(Flatten(PositionLists(Positions)) + Supplemental)

  /** A tactical style and the attributes it requires, in display order. */
  datatype Style = Style(name: string, attributes: seq<Attribute>)

  /** The tactical-style table, in table order. */
  const TacticalStyles: seq<Style> := [
    Style("Gegenpressing (Pressão)", ["Resistência", "Agilidade", "Divididas", "Velocidade", "Interceptação"]),
    Style("Tiki-Taka (Posse de Bola)", ["Passe", "Visão", "Controle de Bola", "Passe Curto", "Posicionamento"]),
    Style("Goleiro Líbero (Saída Curta)", ["Jogo com os Pés", "Passe Curto", "Visão", "Posicionamento", "Saída de Gol"]),
    Style("Jogo de Pontas (Cruzamentos)", ["Velocidade", "Cruzamento", "Drible", "Agilidade", "Finalização"]),
    Style("Jogo Direto (Longas)", ["Força", "Impulsão", "Cabeceio", "Passe", "Finalização"]),
    Style("Contra-Ataque Rápido", ["Velocidade", "Agilidade", "Finalização", "Drible", "Visão"])
  ]

  /** No two entries of a list are equal. */
  predicate Distinct(s: seq<Attribute>)
  {
    forall i, j :: 0 <= i < j < |s| ==> s[i] != s[j]
  }

  /** An attribute belongs to the universe exactly when some position lists it
      or it is one of the supplemental names. */
  lemma AllAttributesMembers(a: Attribute)
    ensures a in AllAttributes <==> (exists p: Position :: a in PositionAttributes(p)) || a in Supplemental
  {
    var lists := PositionLists(Positions);
    if exists p: Position :: a in PositionAttributes(p) {
      var p: Position :| a in PositionAttributes(p);
      var i := match p
        case Atacante => 0 case Zagueiro => 1 case MeioCampo => 2 case Lateral => 3 case Goleiro => 4;
      assert lists[i] == PositionAttributes(p);
      assert a in Flatten(lists);
    }
    if a in Flatten(lists) {
      var i :| 0 <= i < |lists| && a in lists[i];
      assert a in PositionAttributes(Positions[i]);
    }
  }

  /** Each position has six distinct primary attributes, all in the universe. */
  lemma PositionTableShape(p: Position)
    ensures |PositionAttributes(p)| == 6
    ensures Distinct(PositionAttributes(p))
    ensures Elements(PositionAttributes(p)) <= AllAttributes
  {
    forall a | a in PositionAttributes(p) ensures a in AllAttributes {
      AllAttributesMembers(a);
    }
  }

  /** The supplemental names add nothing: each already appears in some
      position's list, so the universe is the union of the position lists. */
  lemma SupplementalRedundant()
    ensures AllAttributes == Elements(Flatten(PositionLists(Positions)))
  {
    var lists := PositionLists(Positions);
    assert "Resistência" in lists[2] && "Interceptação" in lists[2];
    assert "Divididas" in lists[1];
    assert "Passe Curto" in lists[3] && "Drible" in lists[3] && "Cruzamento" in lists[3];
    forall a | a in Supplemental ensures a in Flatten(lists) {
      if a == "Resistência" || a == "Interceptação" {
        assert a in lists[2];
      } else if a == "Divididas" {
        assert a in lists[1];
      } else {
        assert a in lists[3];
      }
    }
  }

  /** The style table has six styles with distinct names; each requires five
      distinct attributes, all of them in the universe. */
  lemma StyleTableShape()
    ensures |TacticalStyles| == 6
    ensures forall i, j :: 0 <= i < j < |TacticalStyles| ==> TacticalStyles[i].name != TacticalStyles[j].name
    ensures forall i :: 0 <= i < |TacticalStyles| ==>
      |TacticalStyles[i].attributes| == 5 && Distinct(TacticalStyles[i].attributes)
    ensures forall i :: 0 <= i < |TacticalStyles| ==> Elements(TacticalStyles[i].attributes) <= AllAttributes
  {
    forall i | 0 <= i < |TacticalStyles| ensures Elements(TacticalStyles[i].attributes) <= AllAttributes {
      forall a | a in TacticalStyles[i].attributes ensures a in AllAttributes {
        AllAttributesMembers(a);
        assert a in PositionAttributes(Atacante) || a in PositionAttributes(Zagueiro)
          || a in PositionAttributes(MeioCampo) || a in PositionAttributes(Lateral)
          || a in PositionAttributes(Goleiro);
      }
    }
  }
}
