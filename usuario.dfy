/**
 * `model.Usuario`: a person with a role. A user is a value here; the setters
 * return the updated user. Two users are "the same user" when their ids are
 * equal, which is what the source's reference comparison amounts to, since
 * every constructed user receives a fresh id.
 */
module Usuarios {
  import Lists
  import Text

  type Id = string

  /** `model.Perfil`: the role of a user. */
  datatype Perfil = Administrador | Gerente | Membro

  /** One setter call on a user. */
  datatype Alteracao =
    | NovoEmail(email: string)
    | NovoCargo(cargo: string)
    | NovaSenha(senha: string)
    | NovoPerfil(perfil: Perfil)

  /**
   * The user record. The datatype constructor is the source's constructor:
   * it stores every argument unchanged, and the id is supplied by the caller
   * (fresh, as `UUID.randomUUID` makes it).
   */
  datatype Usuario = Usuario(
    id: Id,
    nomeCompleto: string,
    cpf: string,
    email: string,
    cargo: string,
    login: string,
    senha: string,
    perfil: Perfil)
  {
    /** The fields that have no setter: they are fixed at construction. */
    predicate MesmaIdentidade(other: Usuario) {
      id == other.id && nomeCompleto == other.nomeCompleto && cpf == other.cpf && login == other.login
    }

    /** `setEmail`: the e-mail changes and nothing else does. */
    function SetEmail(email: string): (u: Usuario)
      ensures u.MesmaIdentidade(this)
      ensures u.email == email && u.cargo == cargo && u.senha == senha && u.perfil == perfil
    {
      this.(email := email)
    }

    /** `setCargo`: the job title changes and nothing else does. */
    function SetCargo(cargo: string): (u: Usuario)
      ensures u.MesmaIdentidade(this)
      ensures u.cargo == cargo && u.email == email && u.senha == senha && u.perfil == perfil
    {
      this.(cargo := cargo)
    }

    /** `setSenha`: the password changes and nothing else does. */
    function SetSenha(senha: string): (u: Usuario)
      ensures u.MesmaIdentidade(this)
      ensures u.senha == senha && u.email == email && u.cargo == cargo && u.perfil == perfil
      ensures u.VerificarSenha(senha)
    {
      this.(senha := senha)
    }

    /** `setPerfil`: the role changes and nothing else does. */
    function SetPerfil(perfil: Perfil): (u: Usuario)
      ensures u.MesmaIdentidade(this)
      ensures u.perfil == perfil && u.email == email && u.cargo == cargo && u.senha == senha
    {
      this.(perfil := perfil)
    }

    /** `validarCPF`: the CPF holds exactly eleven decimal digits, whatever else it holds. */
    function ValidarCpf(): (b: bool)
      ensures b <==> Lists.Count(cpf, Text.IsDigit) == 11
    {
      CpfValidoCountsDigits(cpf);
      CpfValido(cpf)
    }

    /**
     * `verificarSenha`: the password is compared verbatim, without hashing:
     * same length and the same character at every position.
     */
    function VerificarSenha(senhaDigitada: string): (b: bool)
      ensures b <==> |senha| == |senhaDigitada| && forall k :: 0 <= k < |senha| ==> senha[k] == senhaDigitada[k]
    {
      senha == senhaDigitada
    }

    /** The user after one setter call. */
    function Aplicar(a: Alteracao): Usuario {
      match a
      case NovoEmail(e) => SetEmail(e)
      case NovoCargo(c) => SetCargo(c)
      case NovaSenha(s) => SetSenha(s)
      case NovoPerfil(p) => SetPerfil(p)
    }
  }

  /** The user after a series of setter calls, in order. */
  function AplicarTodas(u: Usuario, alteracoes: seq<Alteracao>): Usuario
    decreases |alteracoes|
  {
    if alteracoes == [] then u else AplicarTodas(u.Aplicar(alteracoes[0]), alteracoes[1..])
  }

  /**
   * Id, full name, CPF and login have no setter: no series of setter calls
   * changes them.
   */
  lemma {:induction false} AlteracoesPreservamIdentidade(u: Usuario, alteracoes: seq<Alteracao>)
    ensures AplicarTodas(u, alteracoes).MesmaIdentidade(u)
    decreases |alteracoes|
  {
    if alteracoes != [] {
      AlteracoesPreservamIdentidade(u.Aplicar(alteracoes[0]), alteracoes[1..]);
    }
  }

  /** The CPF check shared by `Usuario.validarCPF` and the user service: eleven digits once non-digits are dropped. */
  predicate CpfValido(cpf: string) {
    |Text.Digits(cpf)| == 11
  }

  /** The CPF check counts digits: separators and any other characters are ignored. */
  lemma CpfValidoCountsDigits(cpf: string)
    ensures CpfValido(cpf) <==> Lists.Count(cpf, Text.IsDigit) == 11
  {
    Lists.CountIsFilterLength(cpf, Text.IsDigit);
  }

  /** The usual written form of an eleven-digit CPF: `ddd.ddd.ddd-dd`. */
  function Pontuado(cpf: string): (f: string)
    requires |cpf| == 11
    ensures |f| == 14
  {
    cpf[..3] + "." + cpf[3..6] + "." + cpf[6..9] + "-" + cpf[9..]
  }

  /**
   * The punctuated and the bare form of one CPF have the same digits and
   * are both valid, yet they are different strings.
   */
  lemma CpfFormatosDistintos(cpf: string)
    requires |cpf| == 11 && Text.AllChars(cpf, Text.IsDigit)
    ensures Text.Digits(Pontuado(cpf)) == cpf
    ensures CpfValido(cpf) && CpfValido(Pontuado(cpf))
    ensures Pontuado(cpf) != cpf
  {
    var d1, d2, d3, d4 := cpf[..3], cpf[3..6], cpf[6..9], cpf[9..];
    SoDigitos(cpf, 0, 3);
    SoDigitos(cpf, 3, 6);
    SoDigitos(cpf, 6, 9);
    SoDigitos(cpf, 9, 11);
    SoDigitos(cpf, 0, 11);
    assert cpf[0..11] == cpf && cpf[9..11] == d4;
    var x1 := d1 + "." + d2;
    DigitosEmVolta(d1, '.', d2);
    var x2 := x1 + "." + d3;
    DigitosEmVolta(x1, '.', d3);
    DigitosEmVolta(x2, '-', d4);
    assert Pontuado(cpf) == x2 + "-" + d4;
    assert d1 + d2 + d3 + d4 == cpf;
  }

  /** A separator that is not a digit is dropped by `Digits`. */
  lemma DigitosEmVolta(a: string, sep: char, b: string)
    requires !Text.IsDigit(sep)
    ensures Text.Digits(a + [sep] + b) == Text.Digits(a) + Text.Digits(b)
  {
    Lists.FilterConcat(a + [sep], b, Text.IsDigit);
    Lists.FilterConcat(a, [sep], Text.IsDigit);
    assert Lists.Filter([sep], Text.IsDigit) == [];
  }

  /** A slice of a string of digits is kept whole by `Digits`. */
  lemma SoDigitos(s: string, i: nat, j: nat)
    requires i <= j <= |s| && Text.AllChars(s, Text.IsDigit)
    ensures Text.Digits(s[i..j]) == s[i..j]
  {
    var d := s[i..j];
    assert forall k :: 0 <= k < |d| ==> d[k] == s[i + k];
    Lists.FilterAllMatch(d, Text.IsDigit);
  }

  // Lookup keys, as the predicates the repository's streams filter by.

  function IdOf(u: Usuario): Id { u.id }

  function CpfOf(u: Usuario): string { u.cpf }

  function LoginOf(u: Usuario): string { u.login }

  function WithId(id: Id): Usuario -> bool {
    (u: Usuario) => u.id == id
  }

  function WithCpf(cpf: string): Usuario -> bool {
    (u: Usuario) => u.cpf == cpf
  }

  function WithLogin(login: string): Usuario -> bool {
    (u: Usuario) => u.login == login
  }

  function WithPerfil(perfil: Perfil): Usuario -> bool {
    (u: Usuario) => u.perfil == perfil
  }

  function WithCredenciais(login: string, senha: string): Usuario -> bool {
    (u: Usuario) => u.login == login && u.VerificarSenha(senha)
  }
}
