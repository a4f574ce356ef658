/**
 * `model.Equipe`: a named team and its ordered member list. Members are
 * compared by user id, which is what the source's reference comparison
 * (`List.contains`/`List.remove` on a class without `equals`) amounts to.
 */
module Equipes {
  import Lists
  import Text
  import Usuarios

  /** The team record; `membros` keeps insertion order. */
  datatype Equipe = Equipe(id: Usuarios.Id, nome: string, descricao: string, membros: seq<Usuarios.Usuario>)
  {
    /** No user appears twice among the members. */
    ghost predicate MembrosDistintos() {
      Lists.Unique(membros, Usuarios.IdOf)
    }

    /** `setNome`: only the name changes. */
    function SetNome(nome: string): (e: Equipe)
      ensures e.id == id && e.nome == nome && e.descricao == descricao && e.membros == membros
    {
      this.(nome := nome)
    }

    /** `setDescricao`: only the description changes. */
    function SetDescricao(descricao: string): (e: Equipe)
      ensures e.id == id && e.nome == nome && e.descricao == descricao && e.membros == membros
    {
      this.(descricao := descricao)
    }

    /**
     * `contemMembro`: some member is the user `u`, which is exactly when the
     * scan for `u`'s id stops inside the member list.
     */
    function ContemMembro(u: Usuarios.Usuario): (b: bool)
      ensures b <==> Lists.FirstIndex(membros, Usuarios.WithId(u.id)) < |membros|
    {
      Lists.AnyMatch(membros, Usuarios.WithId(u.id))
    }

    /** `quantidadeMembros`. */
    function QuantidadeMembros(): (n: nat)
      ensures n == |membros|
      ensures n == 0 <==> forall u :: !ContemMembro(u)
    {
      assert membros != [] ==> ContemMembro(membros[0]);
      |membros|
    }

    /**
     * `adicionarMembro`: appends `u` unless it is already a member. Either
     * way `u` is a member afterwards, and a team without repeated members
     * keeps that property.
     */
    function AdicionarMembro(u: Usuarios.Usuario): (e: Equipe)
      ensures e.id == id && e.nome == nome && e.descricao == descricao
      ensures e.ContemMembro(u)
      ensures ContemMembro(u) ==> e == this
      ensures !ContemMembro(u) ==> e.membros == membros + [u] && |e.membros| == |membros| + 1
      ensures forall v :: e.ContemMembro(v) <==> ContemMembro(v) || v.id == u.id
      ensures MembrosDistintos() ==> e.MembrosDistintos()
    {
      if ContemMembro(u) then this
      else
        var e := this.(membros := membros + [u]);
        assert forall v :: e.ContemMembro(v) <==> ContemMembro(v) || v.id == u.id by {
          forall v ensures e.ContemMembro(v) <==> ContemMembro(v) || v.id == u.id {
            Lists.AppendAnyMatch(membros, u, Usuarios.WithId(v.id));
          }
        }
        assert MembrosDistintos() ==> e.MembrosDistintos() by {
          if MembrosDistintos() {
            Lists.AppendKeepsUnique(membros, u, Usuarios.IdOf);
          }
        }
        e
    }

    /**
     * `removerMembro`: deletes the first member that is `u`, if any. On a
     * team without repeated members, `u` is no longer a member afterwards
     * and the rest of the members are the old ones with `u` filtered out.
     */
    function RemoverMembro(u: Usuarios.Usuario): (e: Equipe)
      ensures e.id == id && e.nome == nome && e.descricao == descricao
      ensures !ContemMembro(u) ==> e == this
      ensures ContemMembro(u) ==> |e.membros| == |membros| - 1
      ensures forall v :: v in e.membros ==> v in membros
      ensures MembrosDistintos() ==> e.MembrosDistintos() && !e.ContemMembro(u)
      ensures MembrosDistintos() ==> e.membros == Lists.RemoveAll(membros, Usuarios.WithId(u.id))
    {
      var e := this.(membros := Lists.RemoveFirst(membros, Usuarios.WithId(u.id)));
      assert MembrosDistintos() ==>
        e.MembrosDistintos() && !e.ContemMembro(u) && e.membros == Lists.RemoveAll(membros, Usuarios.WithId(u.id)) by {
        if MembrosDistintos() {
          Lists.RemoveFirstUnique(membros, Usuarios.WithId(u.id), Usuarios.IdOf, u.id);
        }
      }
      e
    }

    /** `listarGerentes`: the members whose role is manager. */
    function ListarGerentes(): (r: seq<Usuarios.Usuario>)
      ensures forall v :: v in r <==> v in membros && v.perfil == Usuarios.Gerente
      ensures |r| == Lists.Count(membros, Usuarios.WithPerfil(Usuarios.Gerente))
    {
      Lists.CountIsFilterLength(membros, Usuarios.WithPerfil(Usuarios.Gerente));
      Lists.FilterMembers(membros, Usuarios.WithPerfil(Usuarios.Gerente));
      Lists.Filter(membros, Usuarios.WithPerfil(Usuarios.Gerente))
    }

    /**
     * `equals`: teams are equal when their ids are, so a team equals
     * exactly the teams the by-id lookup and replacement match for it.
     */
    function Equals(o: Equipe): (b: bool)
      ensures b <==> WithId(id)(o)
      ensures b <==> Lists.AnyMatch([o], WithId(id))
    {
      assert [o][0] == o;
      id == o.id
    }
  }

  /** The constructor: the given name and description, no members. */
  function NovaEquipe(id: Usuarios.Id, nome: string, descricao: string): (e: Equipe)
    ensures e.id == id && e.nome == nome && e.descricao == descricao
    ensures e.QuantidadeMembros() == 0 && forall u :: !e.ContemMembro(u)
    ensures e.MembrosDistintos()
  {
    Equipe(id, nome, descricao, [])
  }

  /** `listarGerentes` lists the managers in member order: it is a subsequence of the members. */
  lemma GerentesEmOrdem(e: Equipe)
    ensures Lists.IsSubsequence(e.ListarGerentes(), e.membros)
  {
    Lists.FilterIsSubsequence(e.membros, Usuarios.WithPerfil(Usuarios.Gerente));
  }

  /** The members left by `removerMembro` keep their relative order. */
  lemma RemocaoMantemOrdem(e: Equipe, u: Usuarios.Usuario)
    requires e.MembrosDistintos()
    ensures Lists.IsSubsequence(e.RemoverMembro(u).membros, e.membros)
  {
    Lists.FilterIsSubsequence(e.membros, Lists.Not(Usuarios.WithId(u.id)));
  }

  /** Adding a new member and then removing it gives back the team. */
  lemma AdicionarRemoverInverso(e: Equipe, u: Usuarios.Usuario)
    requires !e.ContemMembro(u)
    ensures e.AdicionarMembro(u).RemoverMembro(u) == e
  {
    var p := Usuarios.WithId(u.id);
    var m := e.membros + [u];
    assert Lists.FirstIndex(m, p) == |e.membros| by {
      assert p(m[|e.membros|]);
    }
    assert m[..|e.membros|] == e.membros;
  }

  // Lookup keys, as the predicates the repository's streams filter by.

  function IdOf(e: Equipe): Usuarios.Id { e.id }

  /** `quantidadeMembros` as an ordering key. */
  function Tamanho(e: Equipe): int { |e.membros| }

  /** The name up to case: two names are equal ignoring case exactly when their keys are equal. */
  function NomeChave(e: Equipe): string { Text.FoldCase(e.nome) }

  function WithId(id: Usuarios.Id): Equipe -> bool {
    (e: Equipe) => e.id == id
  }

  function NamedLike(nome: string): Equipe -> bool {
    (e: Equipe) => Text.EqualsIgnoreCase(e.nome, nome)
  }

  function HasMember(u: Usuarios.Usuario): Equipe -> bool {
    (e: Equipe) => e.ContemMembro(u)
  }
}
